/**
 What Python itself makes of a bytes literal, and where the decoder parts from it.

 The literals are the short ones, in single or double quotes, of section 2.4.1 of the Python 3 Language
 Reference.
 */
module PythonReading {
  import opened Wrappers
  import opened PythonLiteral

  /** A byte that may stand for itself between these quotes: any ASCII character but the quote, a backslash
      and the ends of lines.  No Python source may hold a zero byte. */
  predicate MayHold(c: Byte, quote: Byte) {
    0 < c < 128 && c != quote && c != BACKSLASH && !EndsLine(c)
  }

  /** The digits of octal and hexadecimal numbers and their values. */
  function DigitOf(c: Byte): Option<nat> {
    match c as int as char
    case '0' => Some(0)
    case '1' => Some(1)
    case '2' => Some(2)
    case '3' => Some(3)
    case '4' => Some(4)
    case '5' => Some(5)
    case '6' => Some(6)
    case '7' => Some(7)
    case '8' => Some(8)
    case '9' => Some(9)
    case 'a' => Some(10)
    case 'b' => Some(11)
    case 'c' => Some(12)
    case 'd' => Some(13)
    case 'e' => Some(14)
    case 'f' => Some(15)
    case 'A' => Some(10)
    case 'B' => Some(11)
    case 'C' => Some(12)
    case 'D' => Some(13)
    case 'E' => Some(14)
    case 'F' => Some(15)
    case _ => None
  }

  predicate IsDigit(c: Byte, radix: nat) {
    DigitOf(c).Some? && DigitOf(c).value < radix
  }

  predicate AreDigits(digits: Text, radix: nat) {
    forall i | 0 <= i < |digits| :: IsDigit(digits[i], radix)
  }

  /** A number as its digits say, the last one worth one. */
  function NumberOf(digits: Text, radix: nat): nat
    requires AreDigits(digits, radix)
  {
    if digits == [] then 0
    else NumberOf(digits[..|digits| - 1], radix) * radix + DigitOf(digits[|digits| - 1]).value
  }

  /** How many octal digits the text starts with, counting to the limit only. */
  function LeadingOctals(text: Text, limit: nat): (n: nat)
    ensures n <= limit && n <= |text| && AreDigits(text[..n], 8)
  {
    if limit == 0 || text == [] || !IsDigit(text[0], 8) then 0
    else
      var n := LeadingOctals(text[1..], limit - 1);
      assert text[..n + 1] == [text[0]] + text[1..][..n];
      n + 1
  }

  /** The escapes of one character, as the table of that section gives them, in ASCII. */
  function EscapeOf(c: Byte): Option<Byte> {
    match c as int as char
    case '\\' => Some(92)
    case '\'' => Some(39)
    case '"' => Some(34)
    case 'a' => Some(7)
    case 'b' => Some(8)
    case 'f' => Some(12)
    case 'n' => Some(10)
    case 'r' => Some(13)
    case 't' => Some(9)
    case 'v' => Some(11)
    case _ => None
  }

  datatype Reading = Reading(value: Text, length: nat)

  /** What Python makes of the beginning of a text, and of how much of it; None if it refuses the literal. */
  function PythonPiece(text: Text, quote: Byte): (r: Option<Reading>)
    requires text != []
    ensures r.Some? ==> 1 <= r.value.length <= |text|
  {
    if text[0] != BACKSLASH then
      if MayHold(text[0], quote) then Some(Reading([text[0]], 1)) else None
    else if |text| == 1 then None
    else if text[1] == RETURN && |text| > 2 && text[2] == NEWLINE then Some(Reading([], 3))
    else if EndsLine(text[1]) then Some(Reading([], 2))
    else if text[1] == LETTER_X then
      if |text| < 4 || !AreDigits(text[2..4], 16) then None
      else Some(Reading([NumberOf(text[2..4], 16) % 256], 4))
    else if IsDigit(text[1], 8) then
      var n := LeadingOctals(text[1..], 3);
      Some(Reading([NumberOf(text[1..][..n], 8) % 256], 1 + n))
    else if EscapeOf(text[1]).Some? then Some(Reading([EscapeOf(text[1]).value], 2))
    else if 0 < text[1] < 128 then Some(Reading([BACKSLASH, text[1]], 2))
    else None
  }

  /** What Python makes of the text between two quotes. */
  function PythonReads(text: Text, quote: Byte): Option<Text>
    decreases |text|
  {
    if text == [] then Some([])
    else
      var first := PythonPiece(text, quote);
      if first.None? then None
      else
        var rest := PythonReads(text[first.value.length..], quote);
        if rest.None? then None else Some(first.value.value + rest.value)
  }

  /** Both accept the text, and as the same bytes. */
  predicate Agree(text: Text, quote: Byte) {
    PythonReads(text, quote).Some? && Decode(text) == Ok(PythonReads(text, quote).value)
  }

  // ----- the decoder's tables are Python's

  lemma SameDigits(c: Byte)
    ensures HexValue(c) == DigitOf(c)
    ensures IsOctal(c) <==> IsDigit(c, 8)
    ensures HexValue(c).Some? <==> IsDigit(c, 16)
    ensures IsOctal(c) ==> OctalDigit(c) == DigitOf(c).value
  {
  }

  lemma SameEscapes(c: Byte)
    ensures IsEscape(c) <==> EscapeOf(c).Some?
    ensures IsEscape(c) ==> Simple(c) == EscapeOf(c).value
  {
  }

  lemma SameHex(text: Text)
    requires |text| >= 4
    ensures AreDigits(text[2..4], 16) <==> HexValue(text[2]).Some? && HexValue(text[3]).Some?
    ensures AreDigits(text[2..4], 16) ==>
              NumberOf(text[2..4], 16) == HexValue(text[2]).value * 16 + HexValue(text[3]).value < 256
  {
    SameDigits(text[2]);
    SameDigits(text[3]);
    var digits := text[2..4];
    assert digits[0] == text[2] && digits[1] == text[3];
    if AreDigits(digits, 16) {
      assert digits[..1] == [digits[0]] && digits[..1][..0] == [];
      assert NumberOf(digits[..1], 16) == DigitOf(digits[0]).value;
    }
  }

  lemma SameRun(text: Text)
    requires text != [] && IsOctal(text[0])
    ensures LeadingOctals(text, 3) == OctalRun(text)
  {
    forall i | 0 <= i < |text|
      ensures IsOctal(text[i]) <==> IsDigit(text[i], 8)
    {
      SameDigits(text[i]);
    }
    if |text| > 1 {
      var rest := text[1..];
      assert rest[0] == text[1];
      if |text| > 2 {
        assert rest[1..][0] == text[2] && LeadingOctals(rest[1..][1..], 0) == 0;
        assert LeadingOctals(rest[1..], 1) == if IsOctal(text[2]) then 1 else 0;
      } else {
        assert LeadingOctals(rest[1..], 1) == 0;
      }
      assert LeadingOctals(rest, 2) == if IsOctal(text[1]) then 1 + LeadingOctals(rest[1..], 1) else 0;
    }
  }

  /** Python's reading in terms of the decoder's tables. */
  function PieceByTables(text: Text, quote: Byte): Option<Reading>
    requires text != []
  {
    if text[0] != BACKSLASH then
      if MayHold(text[0], quote) then Some(Reading([text[0]], 1)) else None
    else if |text| == 1 then None
    else if text[1] == RETURN && |text| > 2 && text[2] == NEWLINE then Some(Reading([], 3))
    else if EndsLine(text[1]) then Some(Reading([], 2))
    else if text[1] == LETTER_X then
      if |text| < 4 || HexValue(text[2]).None? || HexValue(text[3]).None? then None
      else Some(Reading([HexValue(text[2]).value * 16 + HexValue(text[3]).value], 4))
    else if IsOctal(text[1]) then
      var n := OctalRun(text[1..]);
      Some(Reading([OctalValue(text[1..1 + n]) % 256], 1 + n))
    else if IsEscape(text[1]) then Some(Reading([Simple(text[1])], 2))
    else if 0 < text[1] < 128 then Some(Reading([BACKSLASH, text[1]], 2))
    else None
  }

  lemma SamePiece(text: Text, quote: Byte)
    requires text != []
    ensures PythonPiece(text, quote) == PieceByTables(text, quote)
  {
    if text[0] == BACKSLASH && |text| > 1 {
      SameDigits(text[1]);
      SameEscapes(text[1]);
      if text[1] == LETTER_X && |text| >= 4 {
        SameHex(text);
      }
      if IsOctal(text[1]) {
        var rest := text[1..];
        SameRun(rest);
        var n := OctalRun(rest);
        assert rest[..n] == text[1..1 + n];
        SameOctal(rest[..n]);
      }
    }
  }

  /** One to three octal digits, read from the left and read as a number. */
  lemma SameOctal(digits: Text)
    requires 1 <= |digits| <= 3 && AreDigits(digits, 8)
    ensures NumberOf(digits, 8) == OctalValue(digits) < 512
  {
    SameDigits(digits[0]);
    assert IsDigit(digits[0], 8) && NumberOf([], 8) == 0;
    if |digits| == 1 {
      assert digits[..0] == [];
    } else {
      SameDigits(digits[1]);
      assert IsDigit(digits[1], 8);
      var two := digits[..2];
      assert two[..1] == [digits[0]] && two[..1][..0] == [] && two[1] == digits[1];
      assert NumberOf(two[..1], 8) == DigitOf(digits[0]).value;
      assert NumberOf(two, 8) == DigitOf(digits[0]).value * 8 + DigitOf(digits[1]).value;
      if |digits| == 3 {
        SameDigits(digits[2]);
        assert IsDigit(digits[2], 8);
      } else {
        assert digits == two;
      }
    }
  }

  // ----- the texts on which they agree

  /** The text begins with a character that stands for itself in Python or with an escape that both know. */
  predicate BeginsAlike(text: Text, quote: Byte)
    requires text != []
  {
    && FirstPiece(text).Ok?
    && if text[0] != BACKSLASH then MayHold(text[0], quote)
       else |text| > 1 && (text[1] == LETTER_X || IsOctal(text[1]) || IsEscape(text[1]))
  }

  /** So does everything after it. */
  predicate Plainly(text: Text, quote: Byte)
    decreases |text|
  {
    text == [] || (BeginsAlike(text, quote) && Plainly(text[FirstPiece(text).value.length..], quote))
  }

  lemma AlikePiece(text: Text, quote: Byte)
    requires text != [] && BeginsAlike(text, quote)
    ensures PythonPiece(text, quote) == Some(Reading([FirstPiece(text).value.value], FirstPiece(text).value.length))
  {
    SamePiece(text, quote);
    AlikeByTables(text, quote);
  }

  lemma AlikeByTables(text: Text, quote: Byte)
    requires text != [] && BeginsAlike(text, quote)
    ensures PieceByTables(text, quote) == Some(Reading([FirstPiece(text).value.value], FirstPiece(text).value.length))
  {
  }

  lemma {:induction false} PlainlyAgrees(text: Text, quote: Byte)
    requires Plainly(text, quote)
    ensures Agree(text, quote)
    decreases |text|
  {
    if text != [] {
      AlikePiece(text, quote);
      PlainlyAgrees(text[FirstPiece(text).value.length..], quote);
    }
  }

  // ----- what is lost and gained on the others

  function Count(text: Text, b: Byte): nat {
    if text == [] then 0 else Count(text[1..], b) + if text[0] == b then 1 else 0
  }

  lemma {:induction false} CountConcat(a: Text, c: Text, b: Byte)
    ensures Count(a + c, b) == Count(a, b) + Count(c, b)
  {
    if a == [] {
      assert a + c == c;
    } else {
      assert (a + c)[1..] == a[1..] + c;
      CountConcat(a[1..], c, b);
    }
  }

  /** How many of the bytes end a line. */
  function Ends(text: Text): nat {
    Count(text, NEWLINE) + Count(text, RETURN)
  }

  predicate StartsNoEscape(text: Text) {
    |text| > 1 && text[0] == BACKSLASH && IsUnknown(text[1])
  }

  predicate JoinsLines(text: Text) {
    |text| > 1 && text[0] == BACKSLASH && EndsLine(text[1])
  }

  /** The backslashes in a text that start no escape. */
  function Unknowns(text: Text, quote: Byte): nat
    requires PythonReads(text, quote).Some?
    decreases |text|
  {
    if text == [] then 0
    else
      Unknowns(text[PythonPiece(text, quote).value.length..], quote) + if StartsNoEscape(text) then 1 else 0
  }

  /** The bytes of the line ends in a text that a backslash joins over. */
  function JoinedEnds(text: Text, quote: Byte): nat
    requires PythonReads(text, quote).Some?
    decreases |text|
  {
    if text == [] then 0
    else
      var n := PythonPiece(text, quote).value.length;
      JoinedEnds(text[n..], quote) + if JoinsLines(text) then n - 1 else 0
  }

  /** The decoder's reading of the piece that Python reads first. */
  function DecoderPiece(text: Text, quote: Byte): Text
    requires text != [] && PythonPiece(text, quote).Some? && FirstPiece(text).Ok?
  {
    if JoinsLines(text) then text[1..PythonPiece(text, quote).value.length] else [FirstPiece(text).value.value]
  }

  /** Piece by Python's piece, both readings in step. */
  lemma InStep(text: Text, quote: Byte)
    requires text != [] && PythonReads(text, quote).Some? && Decode(text).Ok?
    ensures FirstPiece(text).Ok? && PythonPiece(text, quote).Some?
    ensures var rest := text[PythonPiece(text, quote).value.length..];
            && PythonReads(rest, quote).Some? && Decode(rest).Ok?
            && Decode(text).value == DecoderPiece(text, quote) + Decode(rest).value
            && PythonReads(text, quote).value == PythonPiece(text, quote).value.value + PythonReads(rest, quote).value
  {
    RestIsAccepted(text);
    SamePiece(text, quote);
    if JoinsLines(text) {
      JoinInStep(text, PythonPiece(text, quote).value.length);
    }
  }

  /** The decoder takes a line end of two bytes in two pieces. */
  lemma JoinInStep(text: Text, n: nat)
    requires JoinsLines(text) && Decode(text).Ok?
    requires n == if text[1] == RETURN && |text| > 2 && text[2] == NEWLINE then 3 else 2
    ensures Decode(text[n..]).Ok? && Decode(text).value == text[1..n] + Decode(text[n..]).value
  {
    JoinTaken(text);
    if n == 3 {
      NewlineTaken(text[2..]);
      assert text[2..][1..] == text[3..];
      TwoBytes(text, Decode(text[3..]).value);
    } else {
      assert text[1..2] == [text[1]];
    }
  }

  lemma TwoBytes(text: Text, rest: Text)
    requires |text| > 2
    ensures text[2..][1..] == text[3..] && [text[1]] + ([text[2]] + rest) == text[1..3] + rest
  {
  }

  lemma JoinTaken(text: Text)
    requires JoinsLines(text) && Decode(text).Ok?
    ensures Decode(text[2..]).Ok? && Decode(text).value == [text[1]] + Decode(text[2..]).value
  {
    RestIsAccepted(text);
  }

  lemma NewlineTaken(text: Text)
    requires text != [] && text[0] == NEWLINE && Decode(text).Ok?
    ensures Decode(text[1..]).Ok? && Decode(text).value == [NEWLINE] + Decode(text[1..]).value
  {
    RestIsAccepted(text);
  }

  lemma {:induction false} EndsOnly(text: Text)
    ensures (forall i | 0 <= i < |text| :: EndsLine(text[i])) ==> Ends(text) == |text| && Count(text, BACKSLASH) == 0
  {
    if text != [] {
      EndsOnly(text[1..]);
    }
  }

  lemma PieceCounts(text: Text, quote: Byte)
    requires text != [] && PythonPiece(text, quote).Some? && FirstPiece(text).Ok?
    ensures var dec, py := DecoderPiece(text, quote), PythonPiece(text, quote).value;
            && Count(py.value, BACKSLASH) == Count(dec, BACKSLASH) + (if StartsNoEscape(text) then 1 else 0)
            && Ends(dec) == Ends(py.value) + if JoinsLines(text) then py.length - 1 else 0
  {
    var dec, py := DecoderPiece(text, quote), PythonPiece(text, quote).value;
    SamePiece(text, quote);
    if JoinsLines(text) {
      EndsOnly(dec);
      assert forall i | 0 <= i < |dec| :: EndsLine(dec[i]);
    } else if StartsNoEscape(text) {
      assert [BACKSLASH, text[1]][1..] == [text[1]] && [text[1]][1..] == [];
    } else {
      assert py.value == dec;
    }
  }

  /** On any text that both accept, the decoder loses one backslash for every backslash that starts no escape,
      and keeps the line ends that Python joins over. */
  lemma {:induction false} BackslashesLost(text: Text, quote: Byte)
    requires PythonReads(text, quote).Some? && Decode(text).Ok?
    ensures var dec, py := Decode(text).value, PythonReads(text, quote).value;
            && Count(py, BACKSLASH) == Count(dec, BACKSLASH) + Unknowns(text, quote)
            && Ends(dec) == Ends(py) + JoinedEnds(text, quote)
    decreases |text|
  {
    if text != [] {
      InStep(text, quote);
      PieceCounts(text, quote);
      var rest := text[PythonPiece(text, quote).value.length..];
      BackslashesLost(rest, quote);
      CountsAdd(DecoderPiece(text, quote), Decode(rest).value);
      CountsAdd(PythonPiece(text, quote).value.value, PythonReads(rest, quote).value);
    }
  }

  lemma CountsAdd(a: Text, b: Text)
    ensures Count(a + b, BACKSLASH) == Count(a, BACKSLASH) + Count(b, BACKSLASH)
    ensures Ends(a + b) == Ends(a) + Ends(b)
  {
    CountConcat(a, b, BACKSLASH);
    CountConcat(a, b, NEWLINE);
    CountConcat(a, b, RETURN);
  }

  lemma {:induction false} NothingLost(text: Text, quote: Byte)
    requires PythonReads(text, quote).Some? && Decode(text).Ok?
    requires Unknowns(text, quote) == 0 && JoinedEnds(text, quote) == 0
    ensures Plainly(text, quote)
    decreases |text|
  {
    if text != [] {
      InStep(text, quote);
      assert !StartsNoEscape(text) && !JoinsLines(text);
      assert BeginsAlike(text, quote);
      AlikePiece(text, quote);
      NothingLost(text[FirstPiece(text).value.length..], quote);
    }
  }

  /** The exact condition, for every text between quotes: the decoder and Python read the same bytes if and
      only if every character that stands for itself may do so, and every backslash starts an escape that is
      complete and names a byte. */
  lemma AgreesWithPythonIff(text: Text, quote: Byte)
    ensures Agree(text, quote) <==> Plainly(text, quote)
  {
    if Plainly(text, quote) {
      PlainlyAgrees(text, quote);
    }
    if Agree(text, quote) {
      BackslashesLost(text, quote);
      NothingLost(text, quote);
    }
  }

  /** The same for whole literals. */
  lemma LiteralAgreesIff(inner: Text, quote: Byte)
    requires IsQuote(quote)
    ensures var s := [LETTER_B, quote] + inner + [quote];
            (PythonReads(inner, quote).Some? && LiteralToHex(s) == Ok((HexOf(PythonReads(inner, quote).value), true)))
            <==> Plainly(inner, quote)
  {
    var s := [LETTER_B, quote] + inner + [quote];
    assert s[2..|s| - 1] == inner;
    AgreesWithPythonIff(inner, quote);
    var py := PythonReads(inner, quote);
    if py.Some? && Decode(inner).Ok? && HexOf(Decode(inner).value) == HexOf(py.value) {
      HexOfInjective(Decode(inner).value, py.value);
    }
  }

  // ----- the same in terms of tokens

  predicate Understood(t: Token, quote: Byte) {
    match t
    case Plain(c) => MayHold(c, quote)
    case Unknown(_) => false
    case JoinedLine(_) => false
    case _ => true
  }

  /** A spelling is read alike exactly if each of its tokens is. */
  lemma {:induction false} PlainlyIffUnderstood(tokens: seq<Token>, quote: Byte)
    requires ValidTokens(tokens)
    ensures Plainly(Spell(tokens), quote) <==> forall i | 0 <= i < |tokens| :: Understood(tokens[i], quote)
  {
    if tokens != [] {
      var t, text := tokens[0], Spell(tokens);
      PlainlyIffUnderstood(tokens[1..], quote);
      FirstPieceOfToken(t, Spell(tokens[1..]));
      assert text[|Spelling(t)|..] == Spell(tokens[1..]);
      TokenBeginsAlike(t, Spell(tokens[1..]), quote);
      assert forall i | 1 <= i < |tokens| :: tokens[i] == tokens[1..][i - 1];
      assert forall i | 0 <= i < |tokens[1..]| :: tokens[1..][i] == tokens[i + 1];
    }
  }

  lemma TokenBeginsAlike(t: Token, rest: Text, quote: Byte)
    requires ValidToken(t) && Separated(t, rest)
    ensures BeginsAlike(Spelling(t) + rest, quote) <==> Understood(t, quote)
  {
    FirstPieceOfToken(t, rest);
    if t.Octal? {
      assert IsOctal(t.digits[0]);
    }
  }

  /** Python reads back what it prints. */
  lemma PythonReadsItsRepr(bytes: Text, quote: Byte)
    requires IsQuote(quote)
    ensures PythonReads(Spell(ReprTokens(bytes, quote)), quote) == Some(bytes)
  {
    var tokens := ReprTokens(bytes, quote);
    ReprTokensSpell(bytes, quote);
    ReprUnderstood(bytes, quote);
    PlainlyIffUnderstood(tokens, quote);
    PlainlyAgrees(Spell(tokens), quote);
    DecodesEverySpelling(tokens);
  }

  lemma {:induction false} ReprUnderstood(bytes: Text, quote: Byte)
    requires IsQuote(quote)
    ensures forall i | 0 <= i < |ReprTokens(bytes, quote)| :: Understood(ReprTokens(bytes, quote)[i], quote)
  {
    if bytes != [] {
      ReprUnderstood(bytes[1..], quote);
    }
  }
}
