/**
 The decoder of Python bytes literals, against the printed forms that a literal may have.

 Text is a sequence of bytes, as Go indexes a string.
 */
module PythonLiteral {
  import opened Wrappers

  type Byte = b: int | 0 <= b < 256

  type Text = seq<Byte>

  const BACKSLASH: Byte := '\\' as int
  const SINGLE: Byte := '\'' as int
  const DOUBLE: Byte := '"' as int
  const NEWLINE: Byte := '\n' as int
  const RETURN: Byte := '\r' as int
  const LETTER_B: Byte := 'b' as int
  const LETTER_X: Byte := 'x' as int

  datatype DecodeError = Unterminated | ShortHex | BadHex | BadOctal

  // ----- digits

  predicate IsOctal(c: Byte) {
    '0' as int <= c <= '7' as int
  }

  /** The value of a hexadecimal digit of either case. */
  function HexValue(c: Byte): Option<nat> {
    if '0' as int <= c <= '9' as int then Some(c - '0' as int)
    else if 'a' as int <= c <= 'f' as int then Some(c - 'a' as int + 10)
    else if 'A' as int <= c <= 'F' as int then Some(c - 'A' as int + 10)
    else None
  }

  /** The lower-case digit of a value. */
  function HexDigit(v: nat): (c: Byte)
    requires v < 16
    ensures HexValue(c) == Some(v) && !('A' as int <= c <= 'F' as int)
  {
    if v < 10 then '0' as int + v else 'a' as int + v - 10
  }

  function HexOf(bytes: Text): Text {
    if bytes == [] then []
    else [HexDigit(bytes[0] / 16), HexDigit(bytes[0] % 16)] + HexOf(bytes[1..])
  }

  predicate AllOctal(digits: Text) {
    forall i | 0 <= i < |digits| :: IsOctal(digits[i])
  }

  function OctalDigit(c: Byte): int {
    c - '0' as int
  }

  /** The value of one to three octal digits. */
  function OctalValue(digits: Text): int
    requires 1 <= |digits| <= 3
  {
    if |digits| == 1 then OctalDigit(digits[0])
    else if |digits| == 2 then OctalDigit(digits[0]) * 8 + OctalDigit(digits[1])
    else OctalDigit(digits[0]) * 64 + OctalDigit(digits[1]) * 8 + OctalDigit(digits[2])
  }

  /** How many octal digits, three at most, a text starts with that starts with one. */
  function OctalRun(text: Text): (n: nat)
    requires text != [] && IsOctal(text[0])
    ensures 1 <= n <= 3 && n <= |text|
  {
    if |text| == 1 || !IsOctal(text[1]) then 1
    else if |text| == 2 || !IsOctal(text[2]) then 2
    else 3
  }

  // ----- the decoder as a function of what is left to read

  /** The byte that a one-character escape stands for; an unknown escape stands for its character. */
  function Simple(c: Byte): Byte {
    if c == 'a' as int then 7
    else if c == 'b' as int then 8
    else if c == 'f' as int then 12
    else if c == 'n' as int then 10
    else if c == 'r' as int then 13
    else if c == 't' as int then 9
    else if c == 'v' as int then 11
    else c
  }

  datatype Piece = Piece(value: Byte, length: nat)

  /** The first byte that the text spells, and how much of the text spells it. */
  function FirstPiece(text: Text): (r: Result<Piece, DecodeError>)
    requires text != []
    ensures r.Ok? ==> 1 <= r.value.length <= |text|
  {
    if text[0] != BACKSLASH || |text| == 1 then Ok(Piece(text[0], 1))
    else if text[1] == LETTER_X then
      if |text| < 4 then Err(ShortHex)
      else
        var high, low := HexValue(text[2]), HexValue(text[3]);
        if high.None? || low.None? then Err(BadHex) else Ok(Piece(high.value * 16 + low.value, 4))
    else if IsOctal(text[1]) then
      var n := OctalRun(text[1..]);
      var v := OctalValue(text[1..1 + n]);
      if v > 255 then Err(BadOctal) else Ok(Piece(v, 1 + n))
    else Ok(Piece(Simple(text[1]), 2))
  }

  function Then(out: Text, r: Result<Text, DecodeError>): Result<Text, DecodeError> {
    if r.Ok? then Ok(out + r.value) else r
  }

  function Decode(text: Text): Result<Text, DecodeError>
    decreases |text|
  {
    if text == [] then Ok([])
    else
      var first := FirstPiece(text);
      if first.Err? then Err(first.error) else Then([first.value.value], Decode(text[first.value.length..]))
  }

  predicate IsQuote(c: Byte) {
    c == SINGLE || c == DOUBLE
  }

  predicate LooksLikeLiteral(s: Text) {
    |s| >= 3 && s[0] == LETTER_B && IsQuote(s[1])
  }

  /** pythonBytesLiteralToHex: the text and whether it was converted. */
  function LiteralToHex(s: Text): Result<(Text, bool), DecodeError> {
    if !LooksLikeLiteral(s) then Ok((s, false))
    else if s[|s| - 1] != s[1] then Err(Unterminated)
    else
      var out := Decode(s[2..|s| - 1]);
      if out.Err? then Err(out.error) else Ok((HexOf(out.value), true))
  }

  /** Only a text that starts with a `b` and a quote, in ASCII, and has a third character is taken for a literal;
      it has to end with that quote, and what is between is decoded. */
  lemma TakenForLiteral(s: Text)
    ensures LiteralToHex(s) == Ok((s, false)) <==> !(|s| >= 3 && s[0] == 98 && s[1] in {34, 39})
    ensures LiteralToHex(s) == Err(Unterminated) <==> |s| >= 3 && s[0] == 98 && s[1] in {34, 39} && s[|s| - 1] != s[1]
  {
    if LooksLikeLiteral(s) && s[|s| - 1] == s[1] {
      NeverUnterminated(s[2..|s| - 1]);
    }
  }

  lemma {:induction false} NeverUnterminated(text: Text)
    ensures Decode(text) != Err(Unterminated)
    decreases |text|
  {
    if text != [] && FirstPiece(text).Ok? {
      NeverUnterminated(text[FirstPiece(text).value.length..]);
    }
  }

  // ----- the decoder as it runs

  method PythonBytesLiteralToHex(s: Text) returns (r: Result<(Text, bool), DecodeError>)
    ensures r == LiteralToHex(s)
  {
    if |s| < 3 || s[0] != LETTER_B || (s[1] != SINGLE && s[1] != DOUBLE) {
      return Ok((s, false));
    }
    var quote := s[1];
    if s[|s| - 1] != quote {
      return Err(Unterminated);
    }
    var out := DecodeInner(s[2..|s| - 1]);
    return if out.Err? then Err(out.error) else Ok((HexOf(out.value), true));
  }

  /** The loop over what stands between the quotes. */
  method DecodeInner(inner: Text) returns (r: Result<Text, DecodeError>)
    ensures r == Decode(inner)
  {
    var out: Text := [];
    var i := 0;
    NothingRead(inner);
    while i < |inner|
      invariant ReadUpTo(inner, i, out)
    {
      var piece := ReadNext(inner, i, out);
      if piece.Err? {
        return Err(piece.error);
      }
      out, i := out + [piece.value.value], i + piece.value.length;
    }
    AllDecoded(inner, out);
    return Ok(out);
  }

  method ReadNext(inner: Text, i: nat, ghost out: Text) returns (piece: Result<Piece, DecodeError>)
    requires i < |inner| && ReadUpTo(inner, i, out)
    ensures piece.Ok? ==>
              piece.value.length > 0 && ReadUpTo(inner, i + piece.value.length, out + [piece.value.value])
    ensures piece.Err? ==> Decode(inner) == Err(piece.error)
  {
    piece := ReadPiece(inner, i);
    if piece.Err? {
      DecodeFails(inner, i, out);
    } else {
      AppendPiece(inner, i, out, piece.value);
    }
  }

  lemma SliceFrom(inner: Text, at: nat, n: nat)
    requires at + 1 + n <= |inner|
    ensures inner[at..][1..] == inner[at + 1..] && inner[at..][1..1 + n] == inner[at + 1..at + 1 + n]
  {
  }

  /** The text up to position i has been read as `out`: whatever the rest decodes to comes behind it. */
  ghost predicate ReadUpTo(inner: Text, i: nat, out: Text) {
    i <= |inner| && forall rest | rest == Decode(inner[i..]) :: Decode(inner) == Then(out, rest)
  }

  lemma NothingRead(inner: Text)
    ensures ReadUpTo(inner, 0, [])
  {
    ThenNothing(Decode(inner));
    assert inner[0..] == inner;
  }

  /** One turn of the loop: a plain character, or the escape after a backslash, at position `at`. */
  method ReadPiece(inner: Text, at: nat) returns (r: Result<Piece, DecodeError>)
    requires at < |inner|
    ensures r == FirstPiece(inner[at..])
  {
    if inner[at] != BACKSLASH || at + 1 == |inner| {
      return Ok(Piece(inner[at], 1));
    }
    var i := at + 1;
    var c := inner[i];
    if c == LETTER_X {
      if i + 2 >= |inner| {
        return Err(ShortHex);
      }
      var high, low := HexValue(inner[i + 1]), HexValue(inner[i + 2]);
      if high.None? || low.None? {
        return Err(BadHex);
      }
      return Ok(Piece(high.value * 16 + low.value, 4));
    }
    if !IsOctal(c) {
      return Ok(Piece(Simple(c), 2));
    }
    var start := i;
    while i + 1 < |inner| && i - start < 2 && IsOctal(inner[i + 1])
      invariant start <= i < |inner| && i - start <= 2
      invariant AllOctal(inner[start..i + 1])
    {
      i := i + 1;
    }
    var n := i + 1 - start;
    SliceFrom(inner, at, n);
    var b := OctalValue(inner[start..i + 1]);
    return if b > 255 then Err(BadOctal) else Ok(Piece(b, 1 + n));
  }

  /** One piece read at position `at` extends the output by its value. */
  lemma AppendPiece(inner: Text, at: nat, out: Text, piece: Piece)
    requires at < |inner| && ReadUpTo(inner, at, out) && FirstPiece(inner[at..]) == Ok(piece)
    ensures ReadUpTo(inner, at + piece.length, out + [piece.value])
  {
    var text := inner[at..];
    DecodeStep(text, piece);
    assert text[piece.length..] == inner[at + piece.length..];
    ThenTwice(out, piece.value, Decode(text[piece.length..]));
  }

  /** A piece that cannot be read fails the whole text. */
  lemma DecodeFails(inner: Text, at: nat, out: Text)
    requires at < |inner| && ReadUpTo(inner, at, out) && FirstPiece(inner[at..]).Err?
    ensures Decode(inner) == Err(FirstPiece(inner[at..]).error)
  {
    var rest := Decode(inner[at..]);
    assert Then(out, rest) == rest == Err(FirstPiece(inner[at..]).error);
  }

  lemma AllDecoded(inner: Text, out: Text)
    requires ReadUpTo(inner, |inner|, out)
    ensures Decode(inner) == Ok(out)
  {
    var rest := Decode(inner[|inner|..]);
    assert Then(out, rest) == Ok(out + []) && out + [] == out;
  }

  lemma DecodeStep(text: Text, piece: Piece)
    requires text != [] && FirstPiece(text) == Ok(piece)
    ensures Decode(text) == Then([piece.value], Decode(text[piece.length..]))
  {
  }

  lemma ThenNothing(r: Result<Text, DecodeError>)
    ensures Then([], r) == r
  {
    assert r.Ok? ==> [] + r.value == r.value;
  }

  lemma ThenTwice(out: Text, b: Byte, r: Result<Text, DecodeError>)
    ensures Then(out, Then([b], r)) == Then(out + [b], r)
  {
    assert r.Ok? ==> out + ([b] + r.value) == out + [b] + r.value;
  }

  // ----- the spellings of a byte string

  /** What a bytes literal may be put together from: plain bytes, escapes, backslashes that start no escape,
      and lines joined by a backslash at their end. */
  datatype Token =
    | Plain(c: Byte)
    | Escaped(c: Byte)
    | Hex(high: Byte, low: Byte)
    | Octal(digits: Text)
    | Unknown(c: Byte)
    | JoinedLine(end: Byte)

  /** The one-character escapes of section 2.4.1 of the Python 3 Language Reference. */
  predicate IsEscape(c: Byte) {
    || c == BACKSLASH || IsQuote(c)
    || c in ['a' as int, 'b' as int, 'f' as int, 'n' as int, 'r' as int, 't' as int, 'v' as int]
  }

  predicate EndsLine(c: Byte) {
    c == NEWLINE || c == RETURN
  }

  /** A backslash before any other character starts no escape. */
  predicate IsUnknown(c: Byte) {
    !IsEscape(c) && !IsOctal(c) && c != LETTER_X && !EndsLine(c)
  }

  predicate ValidToken(t: Token) {
    match t
    case Plain(c) => c != BACKSLASH
    case Escaped(c) => IsEscape(c)
    case Hex(high, low) => HexValue(high).Some? && HexValue(low).Some?
    case Unknown(c) => IsUnknown(c)
    case JoinedLine(end) => EndsLine(end)
    case Octal(digits) =>
      && 1 <= |digits| <= 3
      && AllOctal(digits)
      && OctalValue(digits) < 256
  }

  function Spelling(t: Token): Text {
    match t
    case Plain(c) => [c]
    case Escaped(c) => [BACKSLASH, c]
    case Hex(high, low) => [BACKSLASH, LETTER_X, high, low]
    case Octal(digits) => [BACKSLASH] + digits
    case Unknown(c) => [BACKSLASH, c]
    case JoinedLine(end) => [BACKSLASH, end]
  }

  /** The byte that the decoder makes of a token. */
  function ValueOf(t: Token): Byte
    requires ValidToken(t)
  {
    match t
    case Plain(c) => c
    case Escaped(c) => Simple(c)
    case Hex(high, low) => HexValue(high).value * 16 + HexValue(low).value
    case Octal(digits) => OctalValue(digits)
    case Unknown(c) => c
    case JoinedLine(end) => end
  }

  /** An octal escape of fewer than three digits must not run into a following digit. */
  predicate Separated(t: Token, rest: Text) {
    t.Octal? && |t.digits| < 3 && rest != [] ==> !IsOctal(rest[0])
  }

  function Spell(tokens: seq<Token>): Text {
    if tokens == [] then [] else Spelling(tokens[0]) + Spell(tokens[1..])
  }

  predicate ValidTokens(tokens: seq<Token>) {
    tokens == [] || (ValidToken(tokens[0]) && Separated(tokens[0], Spell(tokens[1..])) && ValidTokens(tokens[1..]))
  }

  function ValuesOf(tokens: seq<Token>): Text
    requires ValidTokens(tokens)
  {
    if tokens == [] then [] else [ValueOf(tokens[0])] + ValuesOf(tokens[1..])
  }

  lemma FirstPieceOfToken(t: Token, rest: Text)
    requires ValidToken(t) && Separated(t, rest)
    ensures FirstPiece(Spelling(t) + rest) == Ok(Piece(ValueOf(t), |Spelling(t)|))
  {
    match t
    case Octal(digits) => FirstPieceOfOctal(digits, rest);
    case Hex(high, low) =>
      var text := Spelling(t) + rest;
      assert text[1] == LETTER_X && text[2] == high && text[3] == low;
    case Plain(c) => assert (Spelling(t) + rest)[0] == c;
    case _ => assert (Spelling(t) + rest)[1] == Spelling(t)[1];
  }

  lemma FirstPieceOfOctal(digits: Text, rest: Text)
    requires ValidToken(Octal(digits)) && Separated(Octal(digits), rest)
    ensures FirstPiece([BACKSLASH] + digits + rest) == Ok(Piece(OctalValue(digits), 1 + |digits|))
  {
    var text := [BACKSLASH] + digits + rest;
    assert text[1..] == digits + rest;
    assert text[1..1 + |digits|] == digits;
    assert IsOctal(text[1]) && OctalRun(text[1..]) == |digits|;
  }

  /** A backslash at the very end is read as itself. */
  function Tail(lone: bool): Text {
    if lone then [BACKSLASH] else []
  }

  ghost predicate IsSpelling(text: Text, tokens: seq<Token>, lone: bool) {
    ValidTokens(tokens) && text == Spell(tokens) + Tail(lone)
  }

  lemma SliceHead(text: Text, n: nat)
    requires 1 + n <= |text|
    ensures text[..1 + n] == [text[0]] + text[1..1 + n]
    ensures forall i | 0 <= i < n :: text[1..1 + n][i] == text[1..][i] == text[1 + i]
    ensures 1 + n < |text| ==> text[1 + n..][0] == text[1..][n]
  {
  }

  function TokenAt(text: Text): (t: Token)
    requires text != [] && FirstPiece(text).Ok? && !(text[0] == BACKSLASH && |text| == 1)
    ensures ValidToken(t) && Spelling(t) == text[..FirstPiece(text).value.length]
    ensures Separated(t, text[FirstPiece(text).value.length..])
  {
    if text[0] != BACKSLASH then Plain(text[0])
    else if text[1] == LETTER_X then Hex(text[2], text[3])
    else if IsOctal(text[1]) then
      var n := OctalRun(text[1..]);
      SliceHead(text, n);
      Octal(text[1..1 + n])
    else if IsEscape(text[1]) then Escaped(text[1])
    else if EndsLine(text[1]) then JoinedLine(text[1])
    else Unknown(text[1])
  }

  /** What the decoder accepts is a spelling, or a spelling with a backslash after it. */
  lemma {:induction false} AcceptedIsSpelling(text: Text) returns (tokens: seq<Token>, lone: bool)
    requires Decode(text).Ok?
    ensures IsSpelling(text, tokens, lone)
    decreases |text|
  {
    if text == [] {
      tokens, lone := [], false;
      assert text == Spell([]) + Tail(false);
    } else if text == [BACKSLASH] {
      tokens, lone := [], true;
      assert text == Spell([]) + Tail(true);
    } else {
      RestIsAccepted(text);
      var n := FirstPiece(text).value.length;
      var rest;
      rest, lone := AcceptedIsSpelling(text[n..]);
      tokens := SpellingStep(text, rest, lone);
    }
  }

  lemma SpellingStep(text: Text, rest: seq<Token>, lone: bool) returns (tokens: seq<Token>)
    requires text != [] && text != [BACKSLASH] && FirstPiece(text).Ok?
    requires IsSpelling(text[FirstPiece(text).value.length..], rest, lone)
    ensures IsSpelling(text, tokens, lone)
  {
    var t, n := TokenAt(text), FirstPiece(text).value.length;
    tokens := [t] + rest;
    SpellingCons(t, text, n, rest, lone);
  }

  lemma RestIsAccepted(text: Text)
    requires text != [] && Decode(text).Ok?
    ensures FirstPiece(text).Ok? && Decode(text[FirstPiece(text).value.length..]).Ok?
    ensures Decode(text).value == [FirstPiece(text).value.value] + Decode(text[FirstPiece(text).value.length..]).value
  {
    if FirstPiece(text).Ok? {
      DecodeStep(text, FirstPiece(text).value);
    }
  }

  lemma SpellingCons(t: Token, text: Text, n: nat, rest: seq<Token>, lone: bool)
    requires n <= |text| && ValidToken(t) && Spelling(t) == text[..n] && Separated(t, text[n..])
    requires IsSpelling(text[n..], rest, lone)
    ensures IsSpelling(text, [t] + rest, lone)
  {
    SeparatedPrefix(t, Spell(rest), Tail(lone));
    SpellCons(t, rest);
    CutAndJoin(text, n, Spell(rest), Tail(lone));
  }

  lemma SeparatedPrefix(t: Token, rest: Text, tail: Text)
    requires Separated(t, rest + tail)
    ensures Separated(t, rest)
  {
    assert rest != [] ==> (rest + tail)[0] == rest[0];
  }

  lemma SpellCons(t: Token, rest: seq<Token>)
    requires ValidToken(t) && Separated(t, Spell(rest)) && ValidTokens(rest)
    ensures ValidTokens([t] + rest) && Spell([t] + rest) == Spelling(t) + Spell(rest)
  {
    assert ([t] + rest)[1..] == rest;
  }

  lemma CutAndJoin(text: Text, n: nat, middle: Text, tail: Text)
    requires n <= |text| && text[n..] == middle + tail
    ensures text == text[..n] + middle + tail
  {
    assert text == text[..n] + text[n..];
  }

  /** The decoder reads every spelling token by token, whatever mixture it is, and a backslash after it as
      itself. */
  lemma {:induction false} SpellingIsAccepted(tokens: seq<Token>, lone: bool)
    requires ValidTokens(tokens)
    ensures Decode(Spell(tokens) + Tail(lone)) == Ok(ValuesOf(tokens) + Tail(lone))
  {
    if tokens == [] {
      LoneBackslash(lone);
    } else {
      SpellingIsAccepted(tokens[1..], lone);
      var t, rest := tokens[0], Spell(tokens[1..]) + Tail(lone);
      FirstPieceOfToken(t, rest);
      assert Spell(tokens) + Tail(lone) == Spelling(t) + rest;
      assert (Spelling(t) + rest)[|Spelling(t)|..] == rest;
      assert ValuesOf(tokens) + Tail(lone) == [ValueOf(t)] + (ValuesOf(tokens[1..]) + Tail(lone));
    }
  }

  lemma LoneBackslash(lone: bool)
    ensures Decode([] + Tail(lone)) == Ok([] + Tail(lone))
  {
    assert [BACKSLASH][1..] == [] && [BACKSLASH] + [] == [BACKSLASH];
    assert Decode([]) == Ok([]) && [] + Tail(lone) == Tail(lone);
  }

  lemma DecodesEverySpelling(tokens: seq<Token>)
    requires ValidTokens(tokens)
    ensures Decode(Spell(tokens)) == Ok(ValuesOf(tokens))
  {
    SpellingIsAccepted(tokens, false);
    assert Spell(tokens) + [] == Spell(tokens) && ValuesOf(tokens) + [] == ValuesOf(tokens);
  }

  /** The decoder accepts exactly the spellings and the spellings with a backslash after them. */
  lemma AcceptsIffSpelling(text: Text)
    ensures Decode(text).Ok? <==> exists tokens, lone :: IsSpelling(text, tokens, lone)
  {
    if Decode(text).Ok? {
      var tokens, lone := AcceptedIsSpelling(text);
    }
    if tokens, lone :| IsSpelling(text, tokens, lone) {
      SpellingIsAccepted(tokens, lone);
    }
  }

  // ----- Python's repr

  /** How bytes.__repr__ writes one byte inside the given quotes. */
  function ReprToken(b: Byte, quote: Byte): Token {
    if b == quote || b == BACKSLASH then Escaped(b)
    else if b == 9 then Escaped('t' as int)
    else if b == 10 then Escaped('n' as int)
    else if b == 13 then Escaped('r' as int)
    else if b < 32 || b >= 127 then Hex(HexDigit(b / 16), HexDigit(b % 16))
    else Plain(b)
  }

  function ReprTokens(bytes: Text, quote: Byte): seq<Token> {
    if bytes == [] then [] else [ReprToken(bytes[0], quote)] + ReprTokens(bytes[1..], quote)
  }

  function Repr(bytes: Text, quote: Byte): Text {
    [LETTER_B, quote] + Spell(ReprTokens(bytes, quote)) + [quote]
  }

  lemma ReprTokenReads(b: Byte, quote: Byte)
    requires IsQuote(quote)
    ensures var t := ReprToken(b, quote); ValidToken(t) && ValueOf(t) == b && !t.Octal?
  {
    assert b / 16 * 16 + b % 16 == b;
  }

  lemma ConsToken(t: Token, tokens: seq<Token>)
    requires ValidToken(t) && !t.Octal? && ValidTokens(tokens)
    ensures ValidTokens([t] + tokens)
    ensures ValuesOf([t] + tokens) == [ValueOf(t)] + ValuesOf(tokens)
  {
    assert ([t] + tokens)[1..] == tokens;
  }

  /** What repr prints spells the bytes. */
  lemma {:induction false} ReprTokensSpell(bytes: Text, quote: Byte)
    requires IsQuote(quote)
    ensures ValidTokens(ReprTokens(bytes, quote))
    ensures ValuesOf(ReprTokens(bytes, quote)) == bytes
  {
    if bytes != [] {
      ReprTokensSpell(bytes[1..], quote);
      ReprTokenReads(bytes[0], quote);
      ConsToken(ReprToken(bytes[0], quote), ReprTokens(bytes[1..], quote));
      assert bytes == [bytes[0]] + bytes[1..];
    }
  }

  /** Round trip: decoding what Python prints for a byte string gives its hexadecimal form, with either
      choice of quotes. */
  lemma DecodeInvertsRepr(bytes: Text, quote: Byte)
    requires IsQuote(quote)
    ensures LiteralToHex(Repr(bytes, quote)) == Ok((HexOf(bytes), true))
  {
    var s := Repr(bytes, quote);
    ReprTokensSpell(bytes, quote);
    DecodesEverySpelling(ReprTokens(bytes, quote));
    assert s[2..|s| - 1] == Spell(ReprTokens(bytes, quote));
  }

  predicate IsLowerHex(c: Byte) {
    HexValue(c).Some? && !('A' as int <= c <= 'F' as int)
  }

  /** The hexadecimal form has two lower-case digits for each byte, high half first, so it loses nothing. */
  lemma {:induction false} HexAt(bytes: Text, i: nat)
    requires i < |bytes|
    ensures |HexOf(bytes)| == 2 * |bytes|
    ensures var high, low := HexOf(bytes)[2 * i], HexOf(bytes)[2 * i + 1];
            IsLowerHex(high) && IsLowerHex(low) && HexValue(high).value * 16 + HexValue(low).value == bytes[i]
  {
    if i > 0 {
      HexAt(bytes[1..], i - 1);
      assert HexOf(bytes)[2..] == HexOf(bytes[1..]);
    } else {
      HexLength(bytes);
    }
  }

  lemma {:induction false} HexLength(bytes: Text)
    ensures |HexOf(bytes)| == 2 * |bytes|
  {
    if bytes != [] {
      HexLength(bytes[1..]);
    }
  }

  lemma HexOfInjective(a: Text, b: Text)
    requires HexOf(a) == HexOf(b)
    ensures a == b
  {
    HexLength(a);
    HexLength(b);
    forall i | 0 <= i < |a|
      ensures a[i] == b[i]
    {
      HexAt(a, i);
      HexAt(b, i);
    }
  }

  lemma {:induction false} HexHasNoQuotes(bytes: Text)
    ensures forall i | 0 <= i < |HexOf(bytes)| :: !IsQuote(HexOf(bytes)[i])
  {
    if bytes != [] {
      HexHasNoQuotes(bytes[1..]);
    }
  }

  /** What the decoder produces is never taken for a literal again. */
  lemma {:induction false} HexIsNoLiteral(bytes: Text)
    ensures !LooksLikeLiteral(HexOf(bytes))
  {
    HexHasNoQuotes(bytes);
  }
}
