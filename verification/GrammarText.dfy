/** How literals and character classes are written into a grammar and what the grammar parser
    reads there.  `format_literal` escapes line ends and quotes and nothing else; classes are
    written without any escape. */
module GrammarText {
  import opened Common
  import opened Gbnf

  // ----- writing -----

  function EscapedChar(c: char): (s: string) {
    if c == '\r' then "\\r" else if c == '\n' then "\\n" else if c == '"' then "\\\"" else [c]
  }

  function Escaped(text: string): (s: string) {
    if text == "" then "" else EscapedChar(text[0]) + Escaped(text[1..])
  }

  /** `format_literal`. */
  function FormatLiteral(text: string): (s: string) {
    "\"" + (Escaped(text) + "\"")
  }

  // ----- reading -----

  function HexDigit(c: char): (v: Option<nat>) {
    if '0' <= c <= '9' then Some(c as int - '0' as int)
    else if 'a' <= c <= 'f' then Some(c as int - 'a' as int + 10)
    else if 'A' <= c <= 'F' then Some(c as int - 'A' as int + 10)
    else None
  }

  /** `parse_hex`: exactly `n` hex digits, continuing the number `v`. */
  function ReadHex(src: string, n: nat, v: nat): (r: Option<(nat, string)>)
    ensures r.Some? ==> |r.value.1| + n == |src|
    decreases n
  {
    if n == 0 then Some((v, src))
    else if src == "" || HexDigit(src[0]).None? then None
    else ReadHex(src[1..], n - 1, 16 * v + HexDigit(src[0]).value)
  }

  /** `parse_char`: a code point and what follows, or an error. */
  function ReadChar(src: string): (r: Option<(nat, string)>)
    ensures r.Some? ==> |r.value.1| < |src|
  {
    if src == "" || src[0] == '\0' then None
    else if src[0] != '\\' then Some((src[0] as int, src[1..]))
    else if |src| == 1 then None
    else
      match src[1]
      case 'x' => ReadHex(src[2..], 2, 0)
      case 'u' => ReadHex(src[2..], 4, 0)
      case 'U' => ReadHex(src[2..], 8, 0)
      case 't' => Some(('\t' as int, src[2..]))
      case 'r' => Some(('\r' as int, src[2..]))
      case 'n' => Some(('\n' as int, src[2..]))
      case '\\' => Some(('\\' as int, src[2..]))
      case '"' => Some(('"' as int, src[2..]))
      case '[' => Some(('[' as int, src[2..]))
      case ']' => Some((']' as int, src[2..]))
      case _ => None
  }

  /** The characters of a literal up to its closing quote. */
  function ReadQuoted(src: string): (r: Option<(seq<nat>, string)>)
    decreases |src|
  {
    if src == "" then None
    else if src[0] == '"' then Some(([], src[1..]))
    else
      var first := ReadChar(src);
      if first.None? then None
      else
        var others := ReadQuoted(first.value.1);
        if others.None? then None else Some(([first.value.0] + others.value.0, others.value.1))
  }

  function ReadLiteral(src: string): (r: Option<(seq<nat>, string)>) {
    if src == "" || src[0] != '"' then None else ReadQuoted(src[1..])
  }

  function Codes(text: string): (cs: seq<nat>) {
    seq(|text|, i requires 0 <= i < |text| => text[i] as int)
  }

  // ----- which literals survive -----

  /** The texts that are read back: those without a backslash or a zero character. */
  predicate Survives(text: string) {
    forall i :: 0 <= i < |text| ==> text[i] != '\\' && text[i] != '\0'
  }

  /** What is read where `text` has been written and the quote after it. */
  function Back(text: string, rest: string): (r: Option<(seq<nat>, string)>) {
    ReadQuoted(Escaped(text) + ("\"" + rest))
  }

  function Then(code: nat, r: Option<(seq<nat>, string)>): Option<(seq<nat>, string)> {
    if r.None? then None else Some(([code] + r.value.0, r.value.1))
  }

  lemma QuotedStep(src: string, code: nat, rest: string)
    requires src != "" && src[0] != '"' && ReadChar(src) == Some((code, rest))
    ensures ReadQuoted(src) == Then(code, ReadQuoted(rest))
  {
    hide ReadChar;
  }

  /** Any other character than a backslash is read as itself. */
  lemma BackStep(text: string, rest: string)
    requires text != "" && text[0] != '\\' && text[0] != '\0'
    ensures Back(text, rest) == Then(text[0] as int, Back(text[1..], rest))
  {
    var src, more := Escaped(text) + ("\"" + rest), Escaped(text[1..]) + ("\"" + rest);
    assert src == EscapedChar(text[0]) + more;
    hide Escaped;
    assert src[|EscapedChar(text[0])|..] == more;
    QuotedStep(src, text[0] as int, more);
  }

  lemma BackNone(rest: string)
    ensures Back("", rest) == Some(([], rest))
  {
    var src := Escaped("") + ("\"" + rest);
    assert src == "\"" + rest;
    assert src[1..] == rest;
  }

  lemma {:induction false} SurvivorsComeBack(text: string, rest: string)
    requires Survives(text)
    ensures Back(text, rest) == Some((Codes(text), rest))
  {
    if text == "" {
      BackNone(rest);
      assert Codes(text) == [];
    } else {
      SurvivorFirst(text);
      hide *;
      BackStep(text, rest);
      SurvivorsComeBack(text[1..], rest);
      AndBehind(text[0] as int, Codes(text[1..]), rest);
    }
  }

  lemma SurvivorFirst(text: string)
    requires Survives(text) && text != ""
    ensures text[0] != '\\' && text[0] != '\0' && Survives(text[1..])
    ensures Codes(text) == [text[0] as int] + Codes(text[1..])
  {}

  lemma AndBehind(code: nat, codes: seq<nat>, rest: string)
    ensures Then(code, Some((codes, rest))) == Some(([code] + codes, rest))
  {}

  /** Behind a backslash that was in the text itself. */
  lemma BackslashStep(text: string, rest: string)
    requires text != "" && text[0] == '\\'
    ensures Back(text, rest) == ReadQuoted("\\" + (Escaped(text[1..]) + ("\"" + rest)))
  {
    var more := Escaped(text[1..]) + ("\"" + rest);
    assert Escaped(text) + ("\"" + rest) == "\\" + more;
  }

  lemma PairStep(x: char, more: string, code: nat)
    requires ReadChar("\\" + ([x] + more)) == Some((code, more))
    ensures ReadQuoted("\\" + ([x] + more)) == Then(code, ReadQuoted(more))
  {
    QuotedStep("\\" + ([x] + more), code, more);
  }

  /** Two characters read as one, where the second stands for itself in the writing. */
  lemma PairRead(x: char, more: string)
    ensures
      var src := "\\" + ([x] + more);
      ReadChar(src) == match x
        case 'x' => ReadHex(more, 2, 0)
        case 'u' => ReadHex(more, 4, 0)
        case 'U' => ReadHex(more, 8, 0)
        case 't' => Some(('\t' as int, more))
        case 'r' => Some(('\r' as int, more))
        case 'n' => Some(('\n' as int, more))
        case '\\' => Some(('\\' as int, more))
        case '"' => Some(('"' as int, more))
        case '[' => Some(('[' as int, more))
        case ']' => Some((']' as int, more))
        case _ => None
  {
    var src := "\\" + ([x] + more);
    assert src[0] == '\\' && src[1] == x && src[2..] == more;
    hide ReadHex;
  }

  lemma WrittenStart(text: string, rest: string)
    ensures
      var src := Escaped(text) + ("\"" + rest);
      if text == "" then src[0] == '"' else src[0] == EscapedChar(text[0])[0]
  {}

  /** Hex digits are written as they are, so reading `n` of them leaves written text. */
  lemma {:induction false} HexLeaves(text: string, rest: string, n: nat, v: nat)
    requires ReadHex(Escaped(text) + ("\"" + rest), n, v).Some?
    ensures n <= |text| && ReadHex(Escaped(text) + ("\"" + rest), n, v).value.1 == Escaped(text[n..]) + ("\"" + rest)
    decreases n
  {
    var src := Escaped(text) + ("\"" + rest);
    if n > 0 {
      WrittenStart(text, rest);
      if text != "" {
        assert src[1..] == Escaped(text[1..]) + ("\"" + rest);
        HexLeaves(text[1..], rest, n - 1, 16 * v + HexDigit(src[0]).value);
        assert text[1..][n - 1..] == text[n..];
      }
    } else {
      assert text[0..] == text;
    }
  }

  /** A backslash in front of the written text of `b`. */
  function AfterBackslash(b: string, rest: string): (r: Option<(seq<nat>, string)>) {
    ReadQuoted("\\" + (Escaped(b) + ("\"" + rest)))
  }

  lemma AfterBackslashOfNothing(rest: string)
    ensures AfterBackslash("", rest) == Then('"' as int, ReadQuoted(rest))
  {
    assert Escaped("") + ("\"" + rest) == ['"'] + rest;
    PairRead('"', rest);
    PairStep('"', rest, '"' as int);
  }

  /** What the backslash and the next written character make. */
  lemma AfterBackslashStep(b: string, rest: string)
    requires b != ""
    ensures
      var c, more := b[0], b[1..];
      AfterBackslash(b, rest) ==
        if c == '\\' then Then('\\' as int, Back(more, rest))
        else if c == '"' then Some((['\\' as int], Escaped(more) + ("\"" + rest)))
        else if c == '\r' then Then('\\' as int, Then('r' as int, Back(more, rest)))
        else if c == '\n' then Then('\\' as int, Then('n' as int, Back(more, rest)))
        else if c == 't' then Then('\t' as int, Back(more, rest))
        else if c == 'r' then Then('\r' as int, Back(more, rest))
        else if c == 'n' then Then('\n' as int, Back(more, rest))
        else if c == '[' then Then('[' as int, Back(more, rest))
        else if c == ']' then Then(']' as int, Back(more, rest))
        else if c in "xuU" then AfterHex(if c == 'x' then 2 else if c == 'u' then 4 else 8, more, rest)
        else None
  {
    var c, more := b[0], b[1..];
    var w := Escaped(more) + ("\"" + rest);
    assert Escaped(b) + ("\"" + rest) == EscapedChar(c) + w;
    hide Escaped, ReadQuoted, ReadHex;
    if c == '"' || c == '\r' || c == '\n' {
      EscapedPair(c, w);
    } else if c in "xuU" {
      HexPair(c, w);
    } else {
      KeptPair(c, w);
    }
  }

  lemma KeptPair(c: char, w: string)
    requires c != '"' && c != '\r' && c != '\n' && c !in "xuU"
    ensures ReadQuoted("\\" + ([c] + w)) ==
      if c == '\\' then Then('\\' as int, ReadQuoted(w))
      else if c == 't' then Then('\t' as int, ReadQuoted(w))
      else if c == 'r' then Then('\r' as int, ReadQuoted(w))
      else if c == 'n' then Then('\n' as int, ReadQuoted(w))
      else if c == '[' then Then('[' as int, ReadQuoted(w))
      else if c == ']' then Then(']' as int, ReadQuoted(w))
      else None
  {
    var src := "\\" + ([c] + w);
    PairRead(c, w);
    assert src[0] == '\\';
    hide ReadChar;
    if ReadChar(src).Some? {
      QuotedStep(src, ReadChar(src).value.0, w);
    }
  }

  lemma EscapedPair(c: char, w: string)
    requires c == '"' || c == '\r' || c == '\n'
    ensures ReadQuoted("\\" + (EscapedChar(c) + w)) ==
      if c == '"' then Some((['\\' as int], w))
      else Then('\\' as int, Then(if c == '\r' then 'r' as int else 'n' as int, ReadQuoted(w)))
  {
    var x := if c == '"' then '"' else if c == '\r' then 'r' else 'n';
    assert EscapedChar(c) + w == ['\\'] + ([x] + w);
    PairRead('\\', [x] + w);
    PairStep('\\', [x] + w, '\\' as int);
    assert ([x] + w)[1..] == w && ([x] + w)[0] == x;
    if c == '"' {
      var code: nat := '\\' as int;
      assert ReadQuoted([x] + w) == Some(([], w)) && [code] + [] == [code];
    } else {
      QuotedStep([x] + w, x as int, w);
    }
  }

  lemma HexPair(c: char, w: string)
    requires c in "xuU"
    ensures
      var hex := ReadHex(w, if c == 'x' then 2 else if c == 'u' then 4 else 8, 0);
      ReadQuoted("\\" + ([c] + w)) == if hex.None? then None else Then(hex.value.0, ReadQuoted(hex.value.1))
  {
    var src := "\\" + ([c] + w);
    PairRead(c, w);
    assert src[0] == '\\';
    hide ReadChar, ReadHex;
    if ReadChar(src).Some? {
      QuotedStep(src, ReadChar(src).value.0, ReadChar(src).value.1);
    }
  }

  function AfterHex(n: nat, text: string, rest: string): (r: Option<(seq<nat>, string)>) {
    var hex := ReadHex(Escaped(text) + ("\"" + rest), n, 0);
    if hex.None? then None else Then(hex.value.0, ReadQuoted(hex.value.1))
  }

  lemma AfterHexIs(n: nat, text: string, rest: string)
    requires AfterHex(n, text, rest).Some?
    ensures ReadHex(Escaped(text) + ("\"" + rest), n, 0).Some?
    ensures n <= |text|
    ensures AfterHex(n, text, rest) == Then(ReadHex(Escaped(text) + ("\"" + rest), n, 0).value.0, Back(text[n..], rest))
  {
    hide ReadQuoted;
    HexLeaves(text, rest, n, 0);
    hide Escaped, ReadHex;
  }

  /** Never more is read than was written. */
  lemma {:induction false} NoLonger(text: string)
    requires Back(text, "").Some?
    ensures |Back(text, "").value.0| <= |text|
    decreases |text|
  {
    hide ReadQuoted, Escaped, AfterHex, Back;
    if text == "" {
      BackNone("");
    } else if text[0] == '\\' {
      var b := text[1..];
      assert Back(text, "") == AfterBackslash(b, "") by { BackslashStep(text, ""); }
      if b == "" {
        AfterBackslashOfNothing("");
        NothingRead();
      } else {
        AfterBackslashStep(b, "");
        hide AfterBackslash;
        if b[0] == '"' {
        } else if b[0] in "xuU" {
          var n := if b[0] == 'x' then 2 else if b[0] == 'u' then 4 else 8;
          AfterHexIs(n, b[1..], "");
          NoLonger(b[1..][n..]);
        } else {
          NoLonger(b[1..]);
        }
      }
    } else {
      if text[0] == '\0' {
        ZeroEnds(text);
      } else {
        BackStep(text, "");
        NoLonger(text[1..]);
      }
    }
  }

  lemma NothingRead()
    ensures ReadQuoted("") == None
  {}

  lemma ZeroEnds(text: string)
    requires text != "" && text[0] == '\0'
    ensures Back(text, "") == None
  {
    assert (Escaped(text) + ("\"" + ""))[0] == '\0';
  }

  lemma {:induction false} OnlySurvivors(text: string)
    requires Back(text, "") == Some((Codes(text), ""))
    ensures Survives(text)
  {
    hide ReadQuoted, Escaped, AfterHex, Back;
    if text != "" {
      var b := text[1..];
      if text[0] == '\\' {
        assert Back(text, "") == AfterBackslash(b, "") by { BackslashStep(text, ""); }
        if b == "" {
          AfterBackslashOfNothing("");
          NothingRead();
        } else {
          AfterBackslashStep(b, "");
          hide AfterBackslash;
          assert Codes(text)[0] == '\\' as int && Codes(text)[1] == b[0] as int;
          if b[0] in "xuU" {
            var n := if b[0] == 'x' then 2 else if b[0] == 'u' then 4 else 8;
            AfterHexIs(n, b[1..], "");
            NoLonger(b[1..][n..]);
          } else if b[0] == '\\' {
            NoLonger(b[1..]);
          }
        }
      } else if text[0] == '\0' {
        ZeroEnds(text);
      } else {
        BackStep(text, "");
        assert Codes(text) == [text[0] as int] + Codes(b);
        assert Codes(text)[1..] == Codes(b);
        assert Back(b, "").value.0 == Back(text, "").value.0[1..];
        OnlySurvivors(b);
      }
    }
  }

  /** A literal is read back as the text it was written for if and only if that text holds no
      backslash and no zero character. */
  lemma LiteralSurvivesIff(text: string)
    ensures ReadLiteral(FormatLiteral(text)) == Some((Codes(text), "")) <==> Survives(text)
  {
    var src := FormatLiteral(text);
    assert src[0] == '"' && src[1..] == Escaped(text) + ("\"" + "");
    hide ReadQuoted, Escaped;
    if Survives(text) {
      SurvivorsComeBack(text, "");
    }
    if Back(text, "") == Some((Codes(text), "")) {
      OnlySurvivors(text);
    }
  }

  /** A code point that is a character of a text. */
  predicate IsChar(v: nat) {
    v < 0xD800 || 0xE000 <= v < 0x11_0000
  }

  function AsChar(v: nat): (c: char)
    requires IsChar(v)
    ensures c as int == v
  {
    v as char
  }

  function Chars(codes: seq<nat>): (text: string)
    requires forall v :: v in codes ==> IsChar(v)
    ensures |text| == |codes| && forall i :: 0 <= i < |codes| ==> text[i] as int == codes[i]
  {
    if codes == [] then ""
    else
      assert codes[|codes| - 1] in codes;
      Chars(codes[..|codes| - 1]) + [AsChar(codes[|codes| - 1])]
  }

  /** The grammar symbol that a literal becomes; where the parser stops with an error or reads
      on into what follows, it stands for no text. */
  function Literal(text: string): (e: Expr)
    ensures e.Lit? || e.AnyOf?
  {
    var r := ReadLiteral(FormatLiteral(text));
    if r.Some? && r.value.1 == "" && forall v :: v in r.value.0 ==> IsChar(v) then Lit(Chars(r.value.0))
    else AnyOf("")
  }

  lemma LiteralOfSurvivor(text: string)
    requires Survives(text)
    ensures Literal(text) == Lit(text)
  {
    hide ReadLiteral, FormatLiteral;
    LiteralSurvivesIff(text);
    CodesAreChars(text);
  }

  /** The literal written for a text accepts that text if and only if it is read back. */
  lemma LiteralAcceptsIff(env: Env, text: string)
    ensures Accepts(env, Literal(text), text) <==> Survives(text)
  {
    hide ReadLiteral, FormatLiteral;
    if Survives(text) {
      LiteralOfSurvivor(text);
    }
    if Accepts(env, Literal(text), text) {
      LiteralSurvivesIff(text);
      CodesOfChars(ReadLiteral(FormatLiteral(text)).value.0);
    }
  }

  lemma CodesOfChars(codes: seq<nat>)
    requires forall v :: v in codes ==> IsChar(v)
    ensures Codes(Chars(codes)) == codes
  {
    forall i | 0 <= i < |codes| ensures Codes(Chars(codes))[i] == codes[i] {
      assert codes[i] in codes;
    }
  }

  /** The JSON text `"a\\b"`, a backslash between two letters, is read as `"a\b"`; a quote
      behind a backslash ends the literal. */
  lemma BackslashesAreLost()
    ensures Literal("\"a\\\\b\"") == Lit("\"a\\b\"")
    ensures Literal("\"a\\\"b\"") == AnyOf("")
  {
    hide ReadQuoted, Back, Escaped, FormatLiteral, ReadLiteral;
    TwoSteps('"', 'a', "\\\\b\"");
    assert ['"', 'a'] + "\\\\b\"" == "\"a\\\\b\"" && "\\" + "\\b\"" == "\\\\b\"";
    BackslashBack("\\b\"");
    assert "\\b\""[1..] == "b\"";
    SurvivorsComeBack("b\"", "");
    var read: seq<nat> := ['"' as int, 'a' as int, '\\' as int] + Codes("b\"");
    assert ['"' as int] + (['a' as int] + (['\\' as int] + Codes("b\""))) == read;
    ReadsBack("\"a\\\\b\"");
    CodesAreChars("\"a\\b\"");
    assert read == Codes("\"a\\b\"");
    TwoSteps('"', 'a', "\\\"b\"");
    assert ['"', 'a'] + "\\\"b\"" == "\"a\\\"b\"" && "\\" + "\"b\"" == "\\\"b\"";
    BackslashBack("\"b\"");
    ReadsBack("\"a\\\"b\"");
    assert "\"b\""[1..] == "b\"";
    NotNothing("b\"");
  }

  lemma CodesAreChars(text: string)
    ensures forall v :: v in Codes(text) ==> IsChar(v)
    ensures Chars(Codes(text)) == text
  {
    forall v | v in Codes(text) ensures IsChar(v) {
      var i :| 0 <= i < |text| && Codes(text)[i] == v;
      assert v == text[i] as int;
    }
  }

  lemma NotNothing(text: string)
    ensures Escaped(text) + ("\"" + "") != ""
  {}

  lemma TwoSteps(c: char, d: char, text: string)
    requires c != '\\' && c != '\0' && d != '\\' && d != '\0'
    ensures Back([c, d] + text, "") == Then(c as int, Then(d as int, Back(text, "")))
  {
    hide Back;
    var all := [c, d] + text;
    assert all[0] == c && all[1..][0] == d && all[1..][1..] == text;
    BackStep(all, "");
    BackStep(all[1..], "");
  }

  lemma BackslashBack(b: string)
    requires b != "" && (b[0] == '\\' || b[0] == '"')
    ensures Back("\\" + b, "") ==
      if b[0] == '\\' then Then('\\' as int, Back(b[1..], "")) else Some((['\\' as int], Escaped(b[1..]) + ("\"" + "")))
  {
    hide Back, Escaped;
    assert ("\\" + b)[1..] == b;
    BackslashStep("\\" + b, "");
    AfterBackslashStep(b, "");
  }

  lemma ReadsBack(text: string)
    ensures ReadLiteral(FormatLiteral(text)) == Back(text, "")
  {
    var src := FormatLiteral(text);
    assert src[0] == '"' && src[1..] == Escaped(text) + ("\"" + "");
  }

  // ----- the JSON text of a name -----

  function HexText(v: nat): (c: char)
    requires v < 16
  {
    if v < 10 then (v + '0' as int) as char else (v - 10 + 'a' as int) as char
  }

  /** A character inside a JSON string, as `dump` writes it. */
  function DumpChar(c: char): (s: string) {
    match c
    case '"' => "\\\""
    case '\\' => "\\\\"
    case '\n' => "\\n"
    case '\r' => "\\r"
    case '\t' => "\\t"
    case _ =>
      if c == 8 as char then "\\b"
      else if c == 12 as char then "\\f"
      else if c < ' ' then "\\u00" + [HexText(c as int / 16), HexText(c as int % 16)]
      else [c]
  }

  function DumpChars(name: string): (s: string) {
    if name == "" then "" else DumpChar(name[0]) + DumpChars(name[1..])
  }

  function Dump(name: string): (s: string) {
    "\"" + (DumpChars(name) + "\"")
  }

  /** No character of the name needs an escape in a JSON string. */
  predicate PlainKey(name: string) {
    forall i :: 0 <= i < |name| ==> name[i] >= ' ' && name[i] != '"' && name[i] != '\\'
  }

  lemma {:induction false} DumpCharsSurvive(name: string)
    ensures Survives(DumpChars(name)) <==> PlainKey(name)
    ensures PlainKey(name) ==> DumpChars(name) == name
  {
    if name != "" {
      var first, others := DumpChar(name[0]), DumpChars(name[1..]);
      DumpCharsSurvive(name[1..]);
      SurvivesBoth(first, others);
      if PlainKey(name) {
        assert first == [name[0]] && PlainKey(name[1..]);
      } else if name[0] >= ' ' && name[0] != '"' && name[0] != '\\' {
        assert exists i :: 0 <= i < |name| && !(name[i] >= ' ' && name[i] != '"' && name[i] != '\\');
        var i :| 0 <= i < |name| && !(name[i] >= ' ' && name[i] != '"' && name[i] != '\\');
        assert name[1..][i - 1] == name[i];
      } else {
        assert first[0] == '\\';
      }
    }
  }

  lemma SurvivesBoth(a: string, b: string)
    ensures Survives(a + b) <==> Survives(a) && Survives(b)
  {
    var all := a + b;
    if Survives(all) {
      assert forall i :: 0 <= i < |a| ==> a[i] == all[i];
      assert forall i :: 0 <= i < |b| ==> b[i] == all[|a| + i];
    }
  }

  /** The key written for a property is read back as its JSON text if and only if that text
      needs no escape. */
  lemma KeySurvivesIff(name: string)
    ensures Survives(Dump(name)) <==> PlainKey(name)
    ensures PlainKey(name) ==> Dump(name) == "\"" + (name + "\"")
  {
    DumpCharsSurvive(name);
    SurvivesBoth(DumpChars(name), "\"");
    SurvivesBoth("\"", DumpChars(name) + "\"");
    hide DumpChars;
  }

  /** The key `a"b` has the JSON text `"a\"b"`, whose literal ends at its second quote. */
  lemma QuoteInKey()
    ensures Dump("a\"b") == "\"a\\\"b\"" && Literal(Dump("a\"b")) == AnyOf("")
  {
    hide Literal, Survives;
    BackslashesAreLost();
    KeySurvivesIff("b");
    assert "a\"b"[1..] == "\"b" && "\"b"[1..] == "b";
    DumpCharsSurvive("b");
    hide PlainKey;
  }

  // ----- character classes -----

  /** The ranges of a class up to its closing bracket: a `-` between two characters makes a
      range of them, unless the bracket follows. */
  function ReadRanges(src: string): (r: Option<(seq<(nat, nat)>, string)>)
    decreases |src|
  {
    if src == "" then None
    else if src[0] == ']' then Some(([], src[1..]))
    else
      var lo := ReadChar(src);
      if lo.None? then None
      else
        var more := lo.value.1;
        if more != "" && more[0] == '-' && !(|more| > 1 && more[1] == ']') then
          var hi := ReadChar(more[1..]);
          if hi.None? then None else AndRange(lo.value.0, hi.value.0, ReadRanges(hi.value.1))
        else AndRange(lo.value.0, lo.value.0, ReadRanges(more))
  }

  function AndRange(lo: nat, hi: nat, r: Option<(seq<(nat, nat)>, string)>): Option<(seq<(nat, nat)>, string)> {
    if r.None? then None else Some(([(lo, hi)] + r.value.0, r.value.1))
  }

  predicate InRanges(c: char, ranges: seq<(nat, nat)>) {
    exists i :: 0 <= i < |ranges| && ranges[i].0 <= c as int <= ranges[i].1
  }

  function Between(lo: nat, hi: nat): (cs: string)
    decreases hi - lo
  {
    if lo > hi then "" else (if IsChar(lo) then [lo as char] else "") + Between(lo + 1, hi)
  }

  function CharsOf(ranges: seq<(nat, nat)>): (cs: string) {
    if ranges == [] then "" else Between(ranges[0].0, ranges[0].1) + CharsOf(ranges[1..])
  }

  lemma {:induction false} BetweenHolds(lo: nat, hi: nat, c: char)
    ensures c in Between(lo, hi) <==> lo <= c as int <= hi
    decreases hi - lo
  {
    if lo <= hi {
      BetweenHolds(lo + 1, hi, c);
    }
  }

  lemma {:induction false} CharsOfHolds(ranges: seq<(nat, nat)>, c: char)
    ensures c in CharsOf(ranges) <==> InRanges(c, ranges)
  {
    if ranges != [] {
      CharsOfHolds(ranges[1..], c);
      BetweenHolds(ranges[0].0, ranges[0].1, c);
      assert forall i :: 0 < i < |ranges| ==> ranges[i] == ranges[1..][i - 1];
      if InRanges(c, ranges[1..]) {
        var i :| 0 <= i < |ranges[1..]| && ranges[1..][i].0 <= c as int <= ranges[1..][i].1;
        assert ranges[i + 1] == ranges[1..][i];
      }
    }
  }

  /** The grammar symbol that the text of a class becomes: without any range it is empty, and
      where the parser stops with an error or reads on it stands for no text. */
  function ClassSymbol(text: string): (e: Expr)
    requires |text| > 1
    ensures e.Lit? || e.AnyOf? || e.NoneOf?
  {
    var negated := text[1] == '^';
    var r := ReadRanges(text[if negated then 2 else 1..]);
    if r.None? || r.value.1 != "" then AnyOf("")
    else if r.value.0 == [] then Lit("")
    else if negated then NoneOf(CharsOf(r.value.0))
    else AnyOf(CharsOf(r.value.0))
  }

  /** The class written for one character. */
  function OneChar(c: char): (e: Expr) {
    ClassSymbol("[" + ([c] + "]"))
  }

  /** A character that stands for itself inside a class. */
  predicate Kept(c: char) {
    c != ']' && c != '\\' && c != '\0'
  }

  /** A character that stands for itself as a class of its own. */
  predicate StandsAlone(c: char) {
    c != '^' && Kept(c)
  }

  /** The class accepts its character and nothing else. */
  ghost predicate ReadsOne(env: Env, c: char) {
    forall w :: Accepts(env, OneChar(c), w) <==> w == [c]
  }

  lemma OneCharIff(env: Env, c: char)
    ensures ReadsOne(env, c) <==> StandsAlone(c)
  {
    var text := "[" + ([c] + "]");
    assert text[1] == c && text[1..] == [c] + "]" && text[2..] == "]";
    if StandsAlone(c) {
      var src := [c] + "]";
      assert src[1..] == "]" && "]"[1..] == "";
      assert ReadRanges("]") == Some(([], ""));
      assert ReadRanges(src) == Some(([(c as int, c as int)] + [], ""));
      var ranges := [(c as int, c as int)];
      assert [(c as int, c as int)] + [] == ranges;
      forall w ensures Accepts(env, OneChar(c), w) <==> w == [c] {
        if |w| == 1 { CharsOfHolds(ranges, w[0]); }
      }
    } else if c == '^' {
      assert "]"[1..] == "";
      assert ReadRanges("]") == Some(([], ""));
      assert !Accepts(env, OneChar(c), [c]);
    } else if c == ']' {
      var src := [c] + "]";
      assert src[1..] == "]" && ReadRanges(src).value.1 == "]";
      assert !Accepts(env, OneChar(c), [c]);
    } else if c == '\\' {
      var src := [c] + "]";
      assert src[2..] == "" && ReadChar(src) == Some((']' as int, ""));
      assert ReadRanges("") == None;
      assert !Accepts(env, OneChar(c), [c]);
    } else {
      assert ReadChar([c] + "]").None?;
      assert !Accepts(env, OneChar(c), [c]);
    }
  }

  // ----- the class of everything else -----

  /** The class written for "neither a quote nor one of `cs`". */
  function NoneBut(cs: string): (e: Expr) {
    ClassSymbol("[^" + ("\"" + (cs + "]")))
  }

  predicate Ascending(cs: string) {
    forall i :: 0 <= i < |cs| - 1 ==> cs[i] < cs[i + 1]
  }

  /** Characters of the ASCII range that stand alone. */
  predicate Clean(cs: string) {
    forall i :: 0 <= i < |cs| ==> StandsAlone(cs[i]) && cs[i] < 0x80 as char
  }

  /** Behind `p`, a `-` comes last, or between the two characters next to it. */
  predicate DashFits(p: char, cs: string) {
    forall i :: 0 <= i < |cs| - 1 ==> DashFitsAt(p, cs, i)
  }

  predicate DashFitsAt(p: char, cs: string, i: nat)
    requires i < |cs| - 1
  {
    cs[i] == '-' ==> CharBefore(p, cs, i) == ',' && cs[i + 1] == '.'
  }

  function CharBefore(p: char, cs: string, i: nat): (c: char)
    requires i < |cs|
  {
    if i == 0 then p else cs[i - 1]
  }

  /** Reading one character that is followed by no dash. */
  lemma RangeStep(p: char, more: string)
    requires Kept(p) && more != "" && (more[0] == '-' ==> |more| > 1 && more[1] == ']')
    ensures ReadRanges([p] + more) == AndRange(p as int, p as int, ReadRanges(more))
  {
    var src := [p] + more;
    assert src[0] == p && src[1..] == more;
    assert ReadChar(src) == Some((p as int, more));
  }

  /** Reading a dash and what makes a range with it. */
  lemma DashStep(p: char, v: char, more: string)
    requires Kept(p) && Kept(v)
    ensures ReadRanges([p] + ("-" + ([v] + more))) == AndRange(p as int, v as int, ReadRanges(more))
  {
    var src := [p] + ("-" + ([v] + more));
    var rest := "-" + ([v] + more);
    assert src[0] == p && src[1..] == rest && rest[0] == '-' && rest[1] == v && rest[1..] == [v] + more;
    assert ReadChar(src) == Some((p as int, rest));
    assert ([v] + more)[1..] == more && ReadChar([v] + more) == Some((v as int, more));
  }

  /** With every dash in such a place exactly the characters written are read. */
  lemma {:induction false} PlainRanges(p: char, cs: string)
    requires StandsAlone(p) && Clean(cs) && Ascending(cs) && DashFits(p, cs) && p != '-'
    ensures
      var r := ReadRanges([p] + (cs + "]"));
      r.Some? && r.value.1 == "" && forall c :: InRanges(c, r.value.0) <==> c == p || c in cs
    decreases |cs|
  {
    hide ReadRanges, InRanges;
    ClosingBracket();
    NoRange();
    if cs == "" {
      assert cs + "]" == "]";
      RangeStep(p, "]");
      OneRange(p as int, p as int, []);
    } else if cs[0] != '-' {
      assert cs + "]" == [cs[0]] + (cs[1..] + "]");
      DashFitsBehind(p, cs);
      PlainRanges(cs[0], cs[1..]);
      RangeStep(p, cs + "]");
      OneRange(p as int, p as int, ReadRanges(cs + "]").value.0);
    } else if |cs| == 1 {
      assert cs + "]" == ['-'] + "]";
      RangeStep('-', "]");
      RangeStep(p, cs + "]");
      OneRange('-' as int, '-' as int, []);
      OneRange(p as int, p as int, [('-' as int, '-' as int)] + []);
      assert cs == ['-'];
    } else {
      var others := cs[2..];
      assert DashFitsAt(p, cs, 0);
      assert cs == ['-', '.'] + others;
      assert [p] + (cs + "]") == [','] + ("-" + (['.'] + (others + "]")));
      DashStep(',', '.', others + "]");
      if others == "" {
        assert others + "]" == "]";
      } else {
        NoDashBehind(cs);
        PlainRanges(others[0], others[1..]);
        assert others + "]" == [others[0]] + (others[1..] + "]");
      }
      OneRange(',' as int, '.' as int, ReadRanges(others + "]").value.0);
      assert forall c :: c in cs <==> c == '-' || c == '.' || c in others;
    }
  }

  lemma DashFitsBehind(p: char, cs: string)
    requires cs != "" && DashFits(p, cs)
    ensures DashFits(cs[0], cs[1..])
  {
    forall i | 0 <= i < |cs[1..]| - 1 ensures DashFitsAt(cs[0], cs[1..], i) {
      assert DashFitsAt(p, cs, i + 1);
    }
  }

  lemma {:induction false} AscendingFirst(cs: string, i: nat)
    requires Ascending(cs) && 0 < i < |cs|
    ensures cs[0] < cs[i]
  {
    if i > 1 { AscendingFirst(cs, i - 1); }
  }

  lemma NoDashBehind(cs: string)
    requires Ascending(cs) && |cs| > 2 && cs[0] == '-'
    ensures DashFits(cs[2], cs[3..]) && cs[2] != '-'
  {
    forall i | 0 < i < |cs| ensures cs[i] != '-' { AscendingFirst(cs, i); }
  }

  lemma NoRange()
    ensures forall c :: !InRanges(c, [])
  {}

  lemma ClosingBracket()
    ensures ReadRanges("]") == Some(([], ""))
  {
    assert "]"[1..] == "";
  }

  lemma OneRange(lo: nat, hi: nat, ranges: seq<(nat, nat)>)
    ensures forall c :: InRanges(c, [(lo, hi)] + ranges) <==> lo <= c as int <= hi || InRanges(c, ranges)
  {
    var all := [(lo, hi)] + ranges;
    forall c ensures InRanges(c, all) <==> lo <= c as int <= hi || InRanges(c, ranges) {
      if InRanges(c, ranges) {
        var i :| 0 <= i < |ranges| && ranges[i].0 <= c as int <= ranges[i].1;
        assert all[i + 1] == ranges[i];
      }
      if lo <= c as int <= hi { assert all[0] == (lo, hi); }
    }
  }

  /** The range that a dash makes is among those read. */
  lemma {:induction false} DashIsRead(p: char, cs: string, i: nat)
    requires StandsAlone(p) && Clean(cs) && i < |cs| - 1 && cs[i] == '-'
    requires p != '-' && forall k :: 0 <= k < i ==> cs[k] != '-'
    requires ReadRanges([p] + (cs + "]")).Some?
    ensures
      var lo := CharBefore(p, cs, i);
      (lo as int, cs[i + 1] as int) in ReadRanges([p] + (cs + "]")).value.0
    decreases i
  {
    hide ReadRanges;
    if i == 0 {
      assert [p] + (cs + "]") == [p] + ("-" + ([cs[1]] + (cs[2..] + "]")));
      DashStep(p, cs[1], cs[2..] + "]");
    } else {
      assert cs + "]" == [cs[0]] + (cs[1..] + "]");
      RangeStep(p, cs + "]");
      DashIsRead(cs[0], cs[1..], i - 1);
    }
  }

  /** A character between the two that is not in the list. */
  lemma MissedChar(cs: string, i: nat) returns (c: char)
    requires Ascending(cs) && i < |cs| - 1 && cs[i] == '-' && Clean(cs)
    requires !(CharBefore('"', cs, i) == ',' && cs[i + 1] == '.')
    ensures c != '"' && c !in cs && CharBefore('"', cs, i) < c <= cs[i + 1] && c <= '.'
  {
    var lo := CharBefore('"', cs, i);
    c := if lo == ',' then '.' else if lo == '!' then '#' else (lo as int + 1) as char;
    forall k | 0 <= k < |cs| ensures cs[k] != c {
      if k < i { if k < i - 1 { AscendingPair(cs, k, i - 1); } } else if k > i { AscendingPair(cs, i, k); }
      if k > i + 1 { AscendingPair(cs, i + 1, k); }
    }
  }

  lemma {:induction false} AscendingPair(cs: string, i: nat, j: nat)
    requires Ascending(cs) && i < j < |cs|
    ensures cs[i] < cs[j]
  {
    if i + 1 < j { AscendingPair(cs, i, j - 1); }
  }

  lemma NoneButRead(cs: string)
    ensures
      var r := ReadRanges(['"'] + (cs + "]"));
      NoneBut(cs) == if r.None? || r.value.1 != "" then AnyOf("")
                     else if r.value.0 == [] then Lit("") else NoneOf(CharsOf(r.value.0))
  {
    var text := "[^" + ("\"" + (cs + "]"));
    assert text[1] == '^' && text[2..] == ['"'] + (cs + "]");
    hide ReadRanges;
  }

  /** The class accepts every single character but the quote and those of `cs`. */
  ghost predicate ReadsNoneBut(env: Env, cs: string) {
    forall w :: Accepts(env, NoneBut(cs), w) <==> |w| == 1 && w[0] != '"' && w[0] !in cs
  }

  /** The class of all other characters is read as it is meant if and only if every dash in it
      comes last or stands between the two characters next to it. */
  lemma NoneButIff(env: Env, cs: string)
    requires Ascending(cs) && Clean(cs)
    ensures ReadsNoneBut(env, cs) <==> DashFits('"', cs)
  {
    NoneButRead(cs);
    hide ReadRanges, NoneBut, CharsOf, InRanges;
    if DashFits('"', cs) {
      PlainRanges('"', cs);
      var ranges := ReadRanges(['"'] + (cs + "]")).value.0;
      SomethingRead(ranges, '"');
      forall w ensures Accepts(env, NoneBut(cs), w) <==> |w| == 1 && w[0] != '"' && w[0] !in cs {
        if |w| == 1 { CharsOfHolds(ranges, w[0]); }
      }
    } else {
      var i := FirstDash(cs);
      var c := MissedChar(cs, i);
      DashRejects(env, cs, i, c, [c]);
    }
  }

  /** Nothing inside the range that a dash makes is let through. */
  lemma DashRejects(env: Env, cs: string, i: nat, c: char, w: string)
    requires Clean(cs) && i < |cs| - 1 && cs[i] == '-' && forall k :: 0 <= k < i ==> cs[k] != '-'
    requires CharBefore('"', cs, i) <= c <= cs[i + 1]
    ensures Accepts(env, NoneBut(cs), w) ==> |w| == 1 && w != [c]
  {
    NoneButRead(cs);
    hide ReadRanges, NoneBut, CharsOf, InRanges;
    var r := ReadRanges(['"'] + (cs + "]"));
    if r.Some? {
      DashIsRead('"', cs, i);
      InRange(r.value.0, CharBefore('"', cs, i) as int, cs[i + 1] as int, c);
      CharsOfHolds(r.value.0, c);
      SomethingRead(r.value.0, c);
    }
  }

  lemma InRange(ranges: seq<(nat, nat)>, lo: nat, hi: nat, c: char)
    requires (lo, hi) in ranges && lo <= c as int <= hi
    ensures InRanges(c, ranges)
  {}

  lemma SomethingRead(ranges: seq<(nat, nat)>, c: char)
    requires InRanges(c, ranges)
    ensures ranges != []
  {}

  lemma FirstDash(cs: string) returns (i: nat)
    requires Ascending(cs) && !DashFits('"', cs)
    ensures i < |cs| - 1 && cs[i] == '-' && forall k :: 0 <= k < i ==> cs[k] != '-'
    ensures !(CharBefore('"', cs, i) == ',' && cs[i + 1] == '.')
  {
    i :| 0 <= i < |cs| - 1 && !DashFitsAt('"', cs, i);
    forall k | 0 <= k < i ensures cs[k] != '-' { AscendingPair(cs, k, i); }
  }

  // ----- what a class of everything else never lets through -----

  /** Every `-` stands between a smaller and a larger character. */
  predicate DashesOrdered(cs: string) {
    forall i :: 0 < i < |cs| - 1 && cs[i] == '-' ==> cs[i - 1] <= '-' <= cs[i + 1]
  }

  /** Reading goes to the first closing bracket, and the characters before it are read, up to
      dashes inside ranges. */
  lemma {:induction false} ReadsToBracket(cs: string, tail: string)
    requires forall i :: 0 <= i < |cs| ==> Kept(cs[i])
    requires DashesOrdered(cs)
    ensures
      var r := ReadRanges(cs + ("]" + tail));
      r.Some? && r.value.1 == tail && forall c :: c in cs && c != '-' ==> InRanges(c, r.value.0)
    decreases |cs|
  {
    hide ReadRanges, InRanges, Kept;
    var end := "]" + tail;
    if cs == "" {
      AtBracket(tail);
      assert "" + end == end;
    } else if |cs| > 2 && cs[1] == '-' {
      var others := cs[3..];
      ReadsToBracket(others, tail);
      assert cs + end == [cs[0]] + ("-" + ([cs[2]] + (others + end)));
      DashStep(cs[0], cs[2], others + end);
      OneRange(cs[0] as int, cs[2] as int, ReadRanges(others + end).value.0);
      assert cs == [cs[0], '-', cs[2]] + others;
    } else {
      ReadsToBracket(cs[1..], tail);
      assert cs + end == [cs[0]] + (cs[1..] + end);
      RangeStep(cs[0], cs[1..] + end);
      OneRange(cs[0] as int, cs[0] as int, ReadRanges(cs[1..] + end).value.0);
    }
  }

  lemma AtBracket(tail: string)
    ensures ReadRanges("]" + tail) == Some(([], tail))
  {
    assert ("]" + tail)[1..] == tail;
  }

  lemma AscendingDashes(cs: string)
    requires Ascending(cs)
    ensures DashesOrdered(['"'] + cs)
  {
    var all := ['"'] + cs;
    forall i | 0 < i < |all| - 1 && all[i] == '-' ensures all[i - 1] <= '-' <= all[i + 1] {
      assert all[i] == cs[i - 1] && all[i + 1] == cs[i];
    }
  }

  /** A bracket among the characters ends the class before its end, and nothing is let through. */
  lemma BracketBlocks(env: Env, cs: string, w: string)
    requires Ascending(cs) && ']' in cs && forall i :: 0 <= i < |cs| ==> cs[i] != '\\' && cs[i] != '\0'
    ensures !Accepts(env, NoneBut(cs), w) && !Accepts(env, OneChar(']'), w)
  {
    var a, b := AroundBracket(cs);
    hide NoneBut, OneChar, Ascending, Kept;
    BracketEnds(a, b);
    OneBracket();
  }

  lemma AroundBracket(cs: string) returns (a: string, b: string)
    requires Ascending(cs) && ']' in cs && forall i :: 0 <= i < |cs| ==> cs[i] != '\\' && cs[i] != '\0'
    ensures cs == a + ("]" + b) && Ascending(a) && forall k :: 0 <= k < |a| ==> Kept(a[k])
  {
    var i :| 0 <= i < |cs| && cs[i] == ']';
    a, b := cs[..i], cs[i + 1..];
    forall k | 0 <= k < |a| ensures Kept(a[k]) { AscendingPair(cs, k, i); }
    AscendingFront(cs, i);
    hide *;
    CutAt(cs, i);
  }

  lemma AscendingFront(cs: string, n: nat)
    requires Ascending(cs) && n <= |cs|
    ensures Ascending(cs[..n])
  {}

  lemma CutAt(cs: string, i: nat)
    requires i < |cs|
    ensures cs == cs[..i] + ([cs[i]] + cs[i + 1..])
  {}

  lemma BracketEnds(a: string, b: string)
    requires Ascending(a) && forall k :: 0 <= k < |a| ==> Kept(a[k])
    ensures NoneBut(a + ("]" + b)) == AnyOf("")
  {
    AscendingDashes(a);
    ReadsToBracket(['"'] + a, b + "]");
    assert ['"'] + ((a + ("]" + b)) + "]") == (['"'] + a) + ("]" + (b + "]"));
    NoneButRead(a + ("]" + b));
    hide ReadRanges, NoneBut, InRanges, CharsOf;
  }

  lemma OneBracket()
    ensures OneChar(']') == AnyOf("")
  {
    var text := "[" + ([']'] + "]");
    assert text[1..] == "]" + "]";
    AtBracket("]");
    hide ReadRanges;
  }

  /** Only single characters are let through, and of the listed ones none but a dash. */
  lemma ListedRejected(env: Env, cs: string, w: string)
    requires Ascending(cs) && forall i :: 0 <= i < |cs| ==> cs[i] != '\\' && cs[i] != '\0'
    ensures Accepts(env, NoneBut(cs), w) ==> |w| == 1 && (w[0] in cs ==> w[0] == '-')
  {
    if ']' in cs {
      BracketBlocks(env, cs, w);
    } else {
      var all := ['"'] + cs;
      AscendingDashes(cs);
      ReadsToBracket(all, "");
      assert all + ("]" + "") == ['"'] + (cs + "]");
      NoneButRead(cs);
      hide ReadRanges, NoneBut, CharsOf, InRanges, DashesOrdered, Ascending;
      var ranges := ReadRanges(['"'] + (cs + "]")).value.0;
      SomethingRead(ranges, '"');
      if |w| == 1 { CharsOfHolds(ranges, w[0]); }
    }
  }

  /** The class written for `^` is empty, and the parser takes it for no character at all. */
  lemma CaretIsNothing()
    ensures OneChar('^') == Lit("")
  {
    var text := "[" + (['^'] + "]");
    assert text[1] == '^' && text[2..] == "]";
    ClosingBracket();
  }
}
