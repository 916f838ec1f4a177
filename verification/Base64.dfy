/** Base64 (RFC 4648, sections 4 and 5): encoding and the bit-by-bit decoder, which may write
    over the text it reads. Characters are bytes. */
module Base64 {
  import opened Common

  type Byte = bv8

  datatype Alphabet = Auto | Standard | UrlSafe

  const PAD: Byte := 61

  // ----- letters -----

  /** The letter for a six-bit value. */
  function Letter(v: Byte, url: bool): (c: Byte)
    requires v < 64
  {
    if v < 26 then 65 + v
    else if v < 52 then 97 + (v - 26)
    else if v < 62 then 48 + (v - 52)
    else if v == 62 then (if url then 45 else 43)
    else (if url then 95 else 47)
  }

  /** `_base64_value`: the value of a letter, and the alphabet from then on. */
  function LetterValue(alphabet: Alphabet, c: Byte): (r: Result<(Byte, Alphabet)>) {
    if 65 <= c <= 90 then Ok((c - 65, alphabet))
    else if 97 <= c <= 122 then Ok((c - 97 + 26, alphabet))
    else if 48 <= c <= 57 then Ok((c - 48 + 52, alphabet))
    else if alphabet != UrlSafe && c == 43 then Ok((62, Standard))
    else if alphabet != UrlSafe && c == 47 then Ok((63, Standard))
    else if alphabet != Standard && c == 45 then Ok((62, UrlSafe))
    else if alphabet != Standard && c == 95 then Ok((63, UrlSafe))
    else Invalid
  }

  /** This alphabet reads what was written with or without the url-safe letters. */
  predicate Reads(alphabet: Alphabet, url: bool) {
    alphabet == Auto || alphabet == if url then UrlSafe else Standard
  }

  lemma LetterRoundTrip(alphabet: Alphabet, v: Byte, url: bool)
    requires v < 64 && Reads(alphabet, url)
    ensures Letter(v, url) != PAD
    ensures
      var r := LetterValue(alphabet, Letter(v, url));
      r.Ok? && r.value.0 == v && Reads(r.value.1, url)
  {}

  // ----- encoding -----

  // the four six-bit values in three bytes
  function First(i0: Byte): (v: Byte)
    ensures v < 64
  {
    (i0 >> 2) & 0x3f
  }

  function Second(i0: Byte, i1: Byte): (v: Byte)
    ensures v < 64
    ensures i1 == 0 ==> v == (i0 & 0x3) << 4
  {
    ((i0 & 0x3) << 4) | ((i1 >> 4) & 0x0f)
  }

  function Third(i1: Byte, i2: Byte): (v: Byte)
    ensures v < 64
    ensures i2 == 0 ==> v == (i1 & 0xf) << 2
  {
    ((i1 & 0xf) << 2) | ((i2 >> 6) & 0x03)
  }

  function Fourth(i2: Byte): (v: Byte)
    ensures v < 64
  {
    i2 & 0x3f
  }

  /** One to three bytes as four letters. */
  function Quad(b: seq<Byte>, url: bool): (text: seq<Byte>)
    requires 1 <= |b| <= 3
    ensures |text| == 4
  {
    match |b|
    case 1 => [Letter(First(b[0]), url), Letter(Second(b[0], 0), url), PAD, PAD]
    case 2 => [Letter(First(b[0]), url), Letter(Second(b[0], b[1]), url), Letter(Third(b[1], 0), url), PAD]
    case _ => [Letter(First(b[0]), url), Letter(Second(b[0], b[1]), url), Letter(Third(b[1], b[2]), url), Letter(Fourth(b[2]), url)]
  }

  function Encoded(b: seq<Byte>, url: bool): (text: seq<Byte>)
    ensures |text| == RequiredEncodeSize(|b|)
  {
    if |b| == 0 then []
    else if |b| <= 3 then Quad(b, url)
    else Quad(b[..3], url) + Encoded(b[3..], url)
  }

  function RequiredEncodeSize(size: nat): nat {
    (size / 3 + if size % 3 != 0 then 1 else 0) * 4
  }

  function MaxDecodeSize(size: nat): nat {
    (size / 4 + if size % 4 != 0 then 1 else 0) * 3
  }

  // ----- decoding -----

  /** What the decoder remembers: how many bits of `last` are not written yet. */
  datatype Bits = Bits(alphabet: Alphabet, bits: nat, last: Byte)
  {
    predicate Wf() {
      bits in {0, 2, 4, 6}
    }
  }

  /** The `bits` low bits of `last` and the high bits of `part`. */
  function Join(last: Byte, part: Byte, bits: nat): (b: Byte)
    requires 2 <= bits <= 8
  {
    (last << (8 - bits)) | (part >> (bits - 2))
  }

  /** One letter: perhaps a byte to write, and the new state. */
  function Feed(s: Bits, c: Byte): (r: Result<(seq<Byte>, Bits)>)
    requires s.Wf()
    ensures r.Ok? ==> r.value.1.Wf() && 8 * |r.value.0| + r.value.1.bits == s.bits + 6
  {
    var v := LetterValue(s.alphabet, c);
    if v.Invalid? then Invalid
    else
      var (part, alphabet) := v.value;
      if s.bits + 6 >= 8 then
        Ok(([Join(s.last, part, s.bits)], Bits(alphabet, s.bits - 2, part)))
      else
        Ok(([], Bits(alphabet, s.bits + 6, part)))
  }

  /** Decoding from state `s`; padding ends it, and only padding may follow unless `loose`. */
  function Decoded(s: Bits, text: seq<Byte>, loose: bool): (r: Result<seq<Byte>>)
    requires s.Wf()
    ensures r.Ok? ==> 8 * |r.value| <= s.bits + 6 * |text|
    decreases |text|
  {
    if text == [] then Ok([])
    else if text[0] == PAD then
      if loose || forall k :: 0 <= k < |text| ==> text[k] == PAD then Ok([]) else Invalid
    else
      var f := Feed(s, text[0]);
      if f.Invalid? then Invalid
      else
        var rest := Decoded(f.value.1, text[1..], loose);
        if rest.Invalid? then Invalid else Ok(f.value.0 + rest.value)
  }

  function Fresh(alphabet: Alphabet): (s: Bits)
    ensures s.Wf()
  {
    Bits(alphabet, 0, 0)
  }

  // ----- round trip -----

  /** What feeding the letter of value v does: a byte as soon as there are eight bits. */
  function Next(s: Bits, v: Byte): (bs: seq<Byte>)
    requires s.Wf()
  {
    if s.bits + 6 >= 8 then [Join(s.last, v, s.bits)] else []
  }

  lemma FeedLetter(s: Bits, v: Byte, url: bool)
    requires s.Wf() && v < 64 && Reads(s.alphabet, url)
    ensures Letter(v, url) != PAD
    ensures
      var f := Feed(s, Letter(v, url));
      && f.Ok? && Reads(f.value.1.alphabet, url)
      && f.value.0 == Next(s, v) && f.value.1.last == v
      && f.value.1.bits == if s.bits == 0 then 6 else s.bits - 2
  {
    LetterRoundTrip(s.alphabet, v, url);
    hide Letter, LetterValue, Reads, Join;
  }

  /** Decoding goes letter by letter. */
  lemma DecodedOne(s: Bits, c: Byte, rest: seq<Byte>, loose: bool)
    requires s.Wf() && c != PAD && Feed(s, c).Ok?
    ensures
      var f := Feed(s, c).value;
      var d := Decoded(f.1, rest, loose);
      Decoded(s, [c] + rest, loose) == if d.Ok? then Ok(f.0 + d.value) else Invalid
  {
    hide Feed;
    assert ([c] + rest)[1..] == rest;
  }

  lemma JoinThree(i0: Byte, i1: Byte, i2: Byte)
    ensures Join(First(i0), Second(i0, i1), 6) == i0
    ensures Join(Second(i0, i1), Third(i1, i2), 4) == i1
    ensures Join(Third(i1, i2), Fourth(i2), 2) == i2
  {}

  function Before(bs: seq<Byte>, r: Result<seq<Byte>>): Result<seq<Byte>> {
    if r.Ok? then Ok(bs + r.value) else Invalid
  }

  /** What the decoder does on a letter it has the value of. */
  lemma DecodedLetter(s: Bits, v: Byte, url: bool, rest: seq<Byte>, loose: bool) returns (t: Bits)
    requires s.Wf() && v < 64 && Reads(s.alphabet, url)
    ensures t.Wf() && Reads(t.alphabet, url) && t.last == v && t.bits == if s.bits == 0 then 6 else s.bits - 2
    ensures Decoded(s, [Letter(v, url)] + rest, loose) == Before(Next(s, v), Decoded(t, rest, loose))
  {
    hide Letter, LetterValue, Reads, Join, Decoded;
    FeedLetter(s, v, url);
    t := Feed(s, Letter(v, url)).value.1;
    DecodedOne(s, Letter(v, url), rest, loose);
  }

  // two, three and four letters from the start of a group
  lemma DecodedTwo(s: Bits, v0: Byte, v1: Byte, url: bool, rest: seq<Byte>, loose: bool) returns (t: Bits)
    requires s.Wf() && s.bits == 0 && v0 < 64 && v1 < 64 && Reads(s.alphabet, url)
    ensures t.Wf() && Reads(t.alphabet, url) && t.last == v1 && t.bits == 4
    ensures Decoded(s, [Letter(v0, url), Letter(v1, url)] + rest, loose) ==
            Before([Join(v0, v1, 6)], Decoded(t, rest, loose))
  {
    hide Letter, Reads, Join, Decoded, Before;
    var c0, c1 := Letter(v0, url), Letter(v1, url);
    assert [c0, c1] + rest == [c0] + ([c1] + rest);
    var t0 := DecodedLetter(s, v0, url, [c1] + rest, loose);
    t := DecodedLetter(t0, v1, url, rest, loose);
    BeforeNothing(Decoded(t0, [c1] + rest, loose));
  }

  lemma DecodedThree(s: Bits, v0: Byte, v1: Byte, v2: Byte, url: bool, rest: seq<Byte>, loose: bool) returns (t: Bits)
    requires s.Wf() && s.bits == 0 && v0 < 64 && v1 < 64 && v2 < 64 && Reads(s.alphabet, url)
    ensures t.Wf() && Reads(t.alphabet, url) && t.last == v2 && t.bits == 2
    ensures Decoded(s, [Letter(v0, url), Letter(v1, url), Letter(v2, url)] + rest, loose) ==
            Before([Join(v0, v1, 6), Join(v1, v2, 4)], Decoded(t, rest, loose))
  {
    hide Letter, Reads, Join, Decoded, Before;
    var c0, c1, c2 := Letter(v0, url), Letter(v1, url), Letter(v2, url);
    assert [c0, c1, c2] + rest == [c0, c1] + ([c2] + rest);
    var t1 := DecodedTwo(s, v0, v1, url, [c2] + rest, loose);
    t := DecodedLetter(t1, v2, url, rest, loose);
    BeforeBefore([Join(v0, v1, 6)], [Join(v1, v2, 4)], Decoded(t, rest, loose));
    assert [Join(v0, v1, 6)] + [Join(v1, v2, 4)] == [Join(v0, v1, 6), Join(v1, v2, 4)];
  }

  lemma DecodedFour(s: Bits, v0: Byte, v1: Byte, v2: Byte, v3: Byte, url: bool, rest: seq<Byte>, loose: bool) returns (t: Bits)
    requires s.Wf() && s.bits == 0 && v0 < 64 && v1 < 64 && v2 < 64 && v3 < 64 && Reads(s.alphabet, url)
    ensures t.Wf() && Reads(t.alphabet, url) && t.bits == 0
    ensures Decoded(s, [Letter(v0, url), Letter(v1, url), Letter(v2, url), Letter(v3, url)] + rest, loose) ==
            Before([Join(v0, v1, 6), Join(v1, v2, 4), Join(v2, v3, 2)], Decoded(t, rest, loose))
  {
    hide Letter, Reads, Join, Decoded, Before;
    var c0, c1, c2, c3 := Letter(v0, url), Letter(v1, url), Letter(v2, url), Letter(v3, url);
    assert [c0, c1, c2, c3] + rest == [c0, c1, c2] + ([c3] + rest);
    var t2 := DecodedThree(s, v0, v1, v2, url, [c3] + rest, loose);
    t := DecodedLetter(t2, v3, url, rest, loose);
    var bs := [Join(v0, v1, 6), Join(v1, v2, 4)];
    BeforeBefore(bs, [Join(v2, v3, 2)], Decoded(t, rest, loose));
    assert bs + [Join(v2, v3, 2)] == [Join(v0, v1, 6), Join(v1, v2, 4), Join(v2, v3, 2)];
  }

  lemma BeforeNothing(r: Result<seq<Byte>>)
    ensures Before([], r) == r
  {
    if r.Ok? {
      assert [] + r.value == r.value;
    }
  }

  lemma BeforeBefore(a: seq<Byte>, b: seq<Byte>, r: Result<seq<Byte>>)
    ensures Before(a, Before(b, r)) == Before(a + b, r)
  {
    if r.Ok? {
      assert a + (b + r.value) == a + b + r.value;
    }
  }

  lemma DecodedPadding(s: Bits, loose: bool)
    requires s.Wf()
    ensures Decoded(s, [], loose) == Decoded(s, [PAD], loose) == Decoded(s, [PAD, PAD], loose) == Ok([])
  {}

  /** One to three encoded bytes are decoded to themselves; three leave no bits over. */
  lemma QuadDecodes(s: Bits, b: seq<Byte>, url: bool, rest: seq<Byte>, loose: bool) returns (t: Bits)
    requires s.Wf() && s.bits == 0 && Reads(s.alphabet, url)
    requires 1 <= |b| <= 3 && (|b| < 3 ==> rest == [])
    ensures |b| == 3 ==> t.Wf() && t.bits == 0 && Reads(t.alphabet, url)
    ensures Decoded(s, Quad(b, url) + rest, loose) == if |b| == 3 then Before(b, Decoded(t, rest, loose)) else Ok(b)
  {
    hide Letter, Reads, Join, Decoded, Before, First, Second, Third, Fourth;
    var i1, i2 := if |b| > 1 then b[1] else 0, if |b| > 2 then b[2] else 0;
    JoinThree(b[0], i1, i2);
    var v0, v1, v2 := First(b[0]), Second(b[0], i1), Third(i1, i2);
    match |b| {
      case 1 =>
        t := DecodedTwo(s, v0, v1, url, [PAD, PAD], loose);
        DecodedPadding(t, loose);
        assert Quad(b, url) + rest == [Letter(v0, url), Letter(v1, url)] + [PAD, PAD];
        BeforeEnd(b);
        assert b == [b[0]];
      case 2 =>
        t := DecodedThree(s, v0, v1, v2, url, [PAD], loose);
        DecodedPadding(t, loose);
        assert Quad(b, url) + rest == [Letter(v0, url), Letter(v1, url), Letter(v2, url)] + [PAD];
        BeforeEnd(b);
        assert b == [b[0], b[1]];
      case _ =>
        t := DecodedFour(s, v0, v1, v2, Fourth(i2), url, rest, loose);
        assert b == [b[0], b[1], b[2]];
    }
  }

  lemma BeforeEnd(b: seq<Byte>)
    ensures Before(b, Ok([])) == Ok(b)
  {
    assert b + [] == b;
  }

  /** Decoding what was encoded gives the bytes back, with the alphabet that was used or with
      automatic detection, and whatever the decoder does about padding. */
  lemma {:induction false} RoundTripFrom(s: Bits, b: seq<Byte>, url: bool, loose: bool)
    requires s.Wf() && s.bits == 0 && Reads(s.alphabet, url)
    ensures Decoded(s, Encoded(b, url), loose) == Ok(b)
    decreases |b|
  {
    hide Quad, Decoded, Reads, Before;
    if |b| == 0 {
      DecodedPadding(s, loose);
    } else if |b| <= 3 {
      var t := QuadDecodes(s, b, url, [], loose);
      assert Quad(b, url) + [] == Quad(b, url);
      if |b| == 3 {
        DecodedPadding(t, loose);
        BeforeEnd(b);
      }
    } else {
      var t := QuadDecodes(s, b[..3], url, Encoded(b[3..], url), loose);
      RoundTripFrom(t, b[3..], url, loose);
      BeforeBefore(b[..3], b[3..], Ok([]));
      BeforeEnd(b[3..]);
      BeforeEnd(b);
      assert b[..3] + b[3..] == b;
    }
  }

  lemma RoundTrip(alphabet: Alphabet, b: seq<Byte>, url: bool, loose: bool)
    requires Reads(alphabet, url)
    ensures Decoded(Fresh(alphabet), Encoded(b, url), loose) == Ok(b)
  {
    RoundTripFrom(Fresh(alphabet), b, url, loose);
  }

  /** The decoder never writes more than the advertised size. */
  lemma DecodeSize(alphabet: Alphabet, text: seq<Byte>, loose: bool)
    ensures var d := Decoded(Fresh(alphabet), text, loose); d.Ok? ==> |d.value| <= MaxDecodeSize(|text|)
  {
    hide Decoded;
  }

  // ----- what is accepted -----

  /** What stands before the first padding. */
  function Unpadded(text: seq<Byte>): (r: seq<Byte>) {
    if text == [] || text[0] == '=' as Byte then [] else [text[0]] + Unpadded(text[1..])
  }

  /** Letters and digits, which both alphabets share. */
  predicate SharedLetter(c: Byte) {
    'A' as Byte <= c <= 'Z' as Byte || 'a' as Byte <= c <= 'z' as Byte || '0' as Byte <= c <= '9' as Byte
  }

  predicate StandardLetter(c: Byte) {
    c == '+' as Byte || c == '/' as Byte
  }

  predicate UrlLetter(c: Byte) {
    c == '-' as Byte || c == '_' as Byte
  }

  ghost predicate AllLetters(letters: seq<Byte>) {
    forall i :: 0 <= i < |letters| ==> SharedLetter(letters[i]) || StandardLetter(letters[i]) || UrlLetter(letters[i])
  }

  ghost predicate SomeStandard(letters: seq<Byte>) {
    exists i :: 0 <= i < |letters| && StandardLetter(letters[i])
  }

  ghost predicate SomeUrl(letters: seq<Byte>) {
    exists i :: 0 <= i < |letters| && UrlLetter(letters[i])
  }

  /** Only letters of one alphabet: the given one, or with automatic detection either. */
  ghost predicate OneAlphabet(alphabet: Alphabet, letters: seq<Byte>) {
    && AllLetters(letters)
    && match alphabet
       case Standard => !SomeUrl(letters)
       case UrlSafe => !SomeStandard(letters)
       case Auto => !SomeStandard(letters) || !SomeUrl(letters)
  }

  /** Nothing but padding behind the letters. */
  ghost predicate PaddedOnly(text: seq<Byte>) {
    forall i :: |Unpadded(text)| <= i < |text| ==> text[i] == '=' as Byte
  }

  lemma LettersApart(c: Byte)
    ensures SharedLetter(c) ==> !StandardLetter(c) && !UrlLetter(c)
    ensures StandardLetter(c) ==> !UrlLetter(c)
  {}

  lemma SharedIs(alphabet: Alphabet, c: Byte)
    requires SharedLetter(c)
    ensures LetterValue(alphabet, c).Ok? && LetterValue(alphabet, c).value.1 == alphabet
  {}

  lemma StandardIs(alphabet: Alphabet, c: Byte)
    requires StandardLetter(c)
    ensures var v := LetterValue(alphabet, c); if alphabet == UrlSafe then v.Invalid? else v.Ok? && v.value.1 == Standard
  {}

  lemma UrlIs(alphabet: Alphabet, c: Byte)
    requires UrlLetter(c)
    ensures var v := LetterValue(alphabet, c); if alphabet == Standard then v.Invalid? else v.Ok? && v.value.1 == UrlSafe
  {}

  lemma OtherIs(alphabet: Alphabet, c: Byte)
    requires !SharedLetter(c) && !StandardLetter(c) && !UrlLetter(c)
    ensures LetterValue(alphabet, c).Invalid?
  {}

  lemma LettersStep(c: Byte, others: seq<Byte>)
    ensures AllLetters([c] + others) <==> (SharedLetter(c) || StandardLetter(c) || UrlLetter(c)) && AllLetters(others)
    ensures SomeStandard([c] + others) <==> StandardLetter(c) || SomeStandard(others)
    ensures SomeUrl([c] + others) <==> UrlLetter(c) || SomeUrl(others)
  {
    hide SharedLetter, StandardLetter, UrlLetter;
    var all := [c] + others;
    assert all[0] == c && forall i :: 0 <= i < |others| ==> all[i + 1] == others[i];
    assert forall i :: 0 < i < |all| ==> all[i] == others[i - 1];
  }

  lemma AlphabetStep(alphabet: Alphabet, c: Byte, others: seq<Byte>)
    ensures OneAlphabet(alphabet, [c] + others) <==>
      LetterValue(alphabet, c).Ok? && OneAlphabet(LetterValue(alphabet, c).value.1, others)
  {
    hide LetterValue, SharedLetter, StandardLetter, UrlLetter, AllLetters, SomeStandard, SomeUrl;
    LettersApart(c);
    LettersStep(c, others);
    if SharedLetter(c) {
      SharedIs(alphabet, c);
    } else if StandardLetter(c) {
      StandardIs(alphabet, c);
    } else if UrlLetter(c) {
      UrlIs(alphabet, c);
    } else {
      OtherIs(alphabet, c);
    }
  }

  lemma PaddedStep(text: seq<Byte>)
    requires text != [] && text[0] != PAD
    ensures PaddedOnly(text) <==> PaddedOnly(text[1..])
  {
    assert forall i :: 1 <= i < |text| ==> text[i] == text[1..][i - 1];
    assert forall i :: 0 <= i < |text| - 1 ==> text[1..][i] == text[i + 1];
  }

  lemma {:induction false} DecodesFrom(s: Bits, text: seq<Byte>, loose: bool)
    requires s.Wf()
    ensures Decoded(s, text, loose).Ok? <==> OneAlphabet(s.alphabet, Unpadded(text)) && (loose || PaddedOnly(text))
    ensures Decoded(s, text, loose).Ok? ==> |Decoded(s, text, loose).value| == (s.bits + 6 * |Unpadded(text)|) / 8
    decreases |text|
  {
    hide Join, LetterValue, OneAlphabet;
    NoLetters(s.alphabet);
    if text == [] {
    } else if text[0] == PAD {
      hide Feed;
      assert Unpadded(text) == [];
    } else {
      AlphabetStep(s.alphabet, text[0], Unpadded(text[1..]));
      PaddedStep(text);
      hide PaddedOnly;
      var f := Feed(s, text[0]);
      if f.Ok? {
        DecodesFrom(f.value.1, text[1..], loose);
        hide Feed;
      }
    }
  }

  lemma NoLetters(alphabet: Alphabet)
    ensures OneAlphabet(alphabet, [])
  {}

  /** A text is decoded if and only if the letters before its padding are of one alphabet and,
      unless `loose`, nothing but padding follows; every eight bits of the letters are one byte,
      and bits left over are dropped. */
  lemma DecodesIff(alphabet: Alphabet, text: seq<Byte>, loose: bool)
    ensures
      var d := Decoded(Fresh(alphabet), text, loose);
      && (d.Ok? <==> OneAlphabet(alphabet, Unpadded(text)) && (loose || PaddedOnly(text)))
      && (d.Ok? ==> |d.value| == 6 * |Unpadded(text)| / 8)
  {
    DecodesFrom(Fresh(alphabet), text, loose);
  }

  // ----- the loops -----

  lemma EncodedStep(b: seq<Byte>, i: nat, n: nat, url: bool)
    requires i < n <= |b| && n == if i + 3 < |b| then i + 3 else |b|
    ensures Encoded(b[i..], url) == Quad(b[i..n], url) + Encoded(b[n..], url)
  {
    hide Quad;
    if n < |b| {
      assert b[i..][..3] == b[i..n] && b[i..][3..] == b[n..];
    } else {
      assert b[i..n] == b[i..] && b[n..] == [];
    }
  }

  /** The body of the encoding loop: up to three bytes from position i on. */
  method EncodeGroup(b: seq<Byte>, i: nat, url: bool) returns (quad: seq<Byte>, n: nat)
    requires i < |b|
    ensures n == (if i + 3 < |b| then i + 3 else |b|) && quad == Quad(b[i..n], url)
  {
    hide Letter, First, Second, Third, Fourth;
    n := i;
    var i0 := b[n];
    n := n + 1;
    quad := [Letter(First(i0), url)];
    if n == |b| {
      return quad + [Letter(Second(i0, 0), url), PAD, PAD], n;
    }
    var i1 := b[n];
    n := n + 1;
    quad := quad + [Letter(Second(i0, i1), url)];
    if n == |b| {
      return quad + [Letter(Third(i1, 0), url), PAD], n;
    }
    var i2 := b[n];
    n := n + 1;
    quad := quad + [Letter(Third(i1, i2), url)] + [Letter(Fourth(i2), url)];
  }

  method Encode(b: seq<Byte>, url: bool) returns (out: seq<Byte>)
    ensures out == Encoded(b, url)
  {
    hide Quad, Encoded;
    out := [];
    var i := 0;
    assert b[0..] == b;
    while i < |b|
      invariant i <= |b| && out + Encoded(b[i..], url) == Encoded(b, url)
    {
      var quad, n := EncodeGroup(b, i, url);
      EncodedStep(b, i, n, url);
      assert out + (quad + Encoded(b[n..], url)) == (out + quad) + Encoded(b[n..], url);
      out := out + quad;
      i := n;
    }
    NothingEncoded(url);
  }

  lemma NothingEncoded(url: bool)
    ensures Encoded([], url) == []
  {}

  /** Decoding into the text's own storage: what is written stays behind what is still to be
      read, so the bytes are those of decoding elsewhere. */
  method DecodeInPlace(a: array<Byte>, alphabet: Alphabet, loose: bool) returns (ok: bool, n: nat)
    modifies a
    ensures
      var d := Decoded(Fresh(alphabet), old(a[..]), loose);
      && ok == d.Ok?
      && n <= a.Length
      && (ok ==> a[..n] == d.value)
  {
    hide Feed, Join, Before, Decoded;
    ghost var text := a[..];
    ghost var all := Decoded(Fresh(alphabet), text, loose);
    var s := Fresh(alphabet);
    var r := 0;
    n := 0;
    BeforeNothing(all);
    assert a[..0] == [] && text[0..] == text;
    while r < a.Length
      invariant r <= a.Length && s.Wf() && 8 * n + s.bits == 6 * r
      invariant a[r..] == text[r..]
      invariant all == Before(a[..n], Decoded(s, text[r..], loose))
    {
      var c := a[r];
      assert c == text[r..][0] && text[r..][1..] == text[r + 1..];
      DecodedStep(s, text[r..], loose);
      if c == PAD {
        break;
      }
      var f := Feed(s, c);
      if f.Invalid? {
        BeforeInvalid(a[..n]);
        return false, 0;
      }
      ghost var was := a[..n];
      BeforeBefore(was, f.value.0, Decoded(f.value.1, text[r + 1..], loose));
      if |f.value.0| > 0 {
        a[n] := f.value.0[0];
        n := n + 1;
        assert a[..n] == was + f.value.0;
      } else {
        assert was + f.value.0 == was;
      }
      s := f.value.1;
      r := r + 1;
    }
    DecodedStep(s, text[r..], loose);
    BeforeEnd(a[..n]);
    BeforeInvalid(a[..n]);
    if !loose {
      for k := r to a.Length
        invariant forall i :: r <= i < k ==> a[i] == PAD
      {
        if a[k] != PAD {
          assert text[r..][k - r] == a[r..][k - r] == a[k];
          return false, 0;
        }
      }
      assert forall i :: 0 <= i < |text[r..]| ==> text[r..][i] == a[r..][i] == a[r + i];
    }
    ok := true;
  }

  /** Decoding by its first letter. */
  lemma DecodedStep(s: Bits, text: seq<Byte>, loose: bool)
    requires s.Wf()
    ensures text == [] ==> Decoded(s, text, loose) == Ok([])
    ensures text != [] && text[0] == PAD ==>
      Decoded(s, text, loose) == if loose || forall k :: 0 <= k < |text| ==> text[k] == PAD then Ok([]) else Invalid
    ensures text != [] && text[0] != PAD ==>
      Decoded(s, text, loose) ==
        (if Feed(s, text[0]).Invalid? then Invalid
         else Before(Feed(s, text[0]).value.0, Decoded(Feed(s, text[0]).value.1, text[1..], loose)))
  {}

  lemma BeforeInvalid(b: seq<Byte>)
    ensures Before(b, Invalid) == Invalid
  {}

  // ----- the values of RFC 4648 -----

  /** The examples of section 10: "f", "fo", "foo" and "foobar" become "Zg==", "Zm8=", "Zm9v" and
      "Zm9vYmFy". */
  lemma RfcExamples()
    ensures Encoded([102], false) == [90, 103, 61, 61] && Encoded([102, 111], false) == [90, 109, 56, 61]
    ensures Encoded([102, 111, 111], false) == [90, 109, 57, 118]
    ensures Encoded([102, 111, 111, 98, 97, 114], false) == [90, 109, 57, 118, 89, 109, 70, 121]
  {
    ShortExamples();
    FullExamples();
    hide Quad;
    var all: seq<Byte> := [102, 111, 111, 98, 97, 114];
    assert all[..3] == [102, 111, 111] && all[3..] == [98, 97, 114];
  }

  lemma ShortExamples()
    ensures Quad([102], false) == [90, 103, 61, 61] && Quad([102, 111], false) == [90, 109, 56, 61]
  {}

  lemma FullExamples()
    ensures Quad([102, 111, 111], false) == [90, 109, 57, 118] && Quad([98, 97, 114], false) == [89, 109, 70, 121]
  {}

  /** The letters for 62 and 63, in either alphabet: "+/+/" and "-_-_". */
  lemma LastLetters()
    ensures Encoded([0xfb, 0xff, 0xbf], false) == [43, 47, 43, 47] && Encoded([0xfb, 0xff, 0xbf], true) == [45, 95, 45, 95]
  {}
}
