/** The texts of the persist format as syntax trees with all that their spelling leaves
    open: white space, comments, quotes, escapes, bracket levels, separators.  What each
    spelling denotes is told without the parser. */
module LuaSyntax {
  import opened Text
  import opened LuaValue
  import opened LuaText
  import opened LuaGrammar
  import LuaRoundTrip

  // ---- white space and comments ----------------------------------------------

  datatype Gap = Blank(c: char) | Comment(text: string)

  /** A comment runs to the end of its line; "--[[" and "--[=" begin no such comment. */
  predicate GapOk(g: Gap) {
    match g
    case Blank(c) => c == ' ' || c == '\t' || c == '\n' || c == '\r'
    case Comment(text) => '\n' !in text && !HasPrefix(text, "[[") && !HasPrefix(text, "[=")
  }

  predicate SpaceOk(gs: seq<Gap>) {
    forall i :: 0 <= i < |gs| ==> GapOk(gs[i])
  }

  function GapText(g: Gap): string {
    match g
    case Blank(c) => [c]
    case Comment(text) => "--" + (text + "\n")
  }

  function SpaceText(gs: seq<Gap>): string {
    if gs == [] then "" else GapText(gs[0]) + SpaceText(gs[1..])
  }

  lemma {:induction false} CommentSkipped(text: string, t: string)
    requires GapOk(Comment(text))
    ensures SkipSpace("--" + (text + ("\n" + t))) == SkipSpace(t)
  {
    var u := "--" + (text + ("\n" + t));
    assert u[2..] == text + ("\n" + t);
    RunAppend(text, "\n" + t, InComment);
    assert u[2 + |text|..] == "\n" + t;
    assert ("\n" + t)[1..] == t;
    if |text| >= 2 {
      assert text[..2] == [text[0], text[1]];
      assert u[2] == text[0] && u[3] == text[1];
    } else if |text| == 1 {
      assert u[3] == '\n';
    }
  }

  lemma {:induction false} GapSkipped(g: Gap, t: string)
    requires GapOk(g)
    ensures SkipSpace(GapText(g) + t) == SkipSpace(t)
  {
    match g
    case Blank(c) => assert ([c] + t)[1..] == t;
    case Comment(text) =>
      CommentSkipped(text, t);
      assert GapText(g) + t == "--" + (text + ("\n" + t));
  }

  /** Space before a text is skipped, whatever it is made of. */
  lemma {:induction false} SpaceSkipped(gs: seq<Gap>, t: string)
    requires SpaceOk(gs)
    ensures SkipSpace(SpaceText(gs) + t) == SkipSpace(t)
  {
    if gs == [] {
      assert SpaceText(gs) + t == t;
    } else {
      Regroup(GapText(gs[0]), SpaceText(gs[1..]), t);
      GapSkipped(gs[0], SpaceText(gs[1..]) + t);
      SpaceSkipped(gs[1..], t);
    }
  }

  // ---- short strings ---------------------------------------------------------

  /** One byte of a string as it may be written between quotes. */
  datatype Byte =
    | Itself(c: char)
    | Named(letter: char)         // a backslash and a letter, a backslash or a quote
    | Hex(high: char, low: char)  // \xHH
    | Code(digits: string)        // a backslash and up to three digits
    | Broken                      // a backslash at the end of a line

  /** The named escapes and the codes of the bytes they stand for. */
  const NAMED: seq<(char, nat)> := [
    ('a', 7), ('b', 8), ('t', 9), ('n', 10), ('v', 11), ('f', 12), ('r', 13), ('"', 34), ('\'', 39), ('\\', 92)]

  ghost predicate Names(letter: char, code: nat) {
    exists i :: 0 <= i < |NAMED| && NAMED[i] == (letter, code)
  }

  const HEX_DIGITS := "0123456789abcdef"

  /** d is a hexadecimal digit, in either case, worth n. */
  predicate HexWorth(d: char, n: nat) {
    n < 16 && (d == HEX_DIGITS[n] || (n >= 10 && d as int == HEX_DIGITS[n] as int - 32))
  }

  /** The spelling denotes the byte c between these quotes; digits follow it or not. */
  ghost predicate Spells(b: Byte, c: char, quote: char, digitFollows: bool) {
    match b
    case Itself(d) => d == c && d != quote && d != '\\' && d != '\n'
    case Named(letter) => Names(letter, c as nat)
    case Hex(high, low) => exists m: nat, n: nat :: HexWorth(high, m) && HexWorth(low, n) && c as int == 16 * m + n
    case Code(digits) =>
      && 1 <= |digits| <= 3 && All(digits, IsDigit) && DecimalValue(digits) == c as nat < 256
      && (digitFollows ==> |digits| == 3)
    case Broken => c as int == 10
  }

  /** What stands behind the backslash. */
  function EscapeText(b: Byte): string
    requires !b.Itself?
  {
    match b
    case Named(letter) => [letter]
    case Hex(high, low) => ['x', high, low]
    case Code(digits) => digits
    case Broken => "\n"
  }

  function ByteText(b: Byte): string {
    if b.Itself? then [b.c] else ['\\'] + EscapeText(b)
  }

  function BytesText(bs: seq<Byte>): string {
    if bs == [] then "" else ByteText(bs[0]) + BytesText(bs[1..])
  }

  predicate StartsDigit(bs: seq<Byte>) {
    bs != [] && bs[0].Itself? && IsDigit(bs[0].c)
  }

  /** The bytes are spelled one by one. */
  ghost predicate SpellsAll(bs: seq<Byte>, s: string, quote: char) {
    |bs| == |s| && forall i :: 0 <= i < |bs| ==> Spells(bs[i], s[i], quote, StartsDigit(bs[i + 1..]))
  }

  lemma {:induction false} NamedEscape(letter: char, c: char, t: string)
    requires Names(letter, c as nat)
    ensures ReadEscape([letter] + t) == Ok((c, t))
  {
    assert ([letter] + t)[1..] == t;
    var i :| 0 <= i < |NAMED| && NAMED[i] == (letter, c as nat);
    assert letter in SIMPLE_ESCAPES && SIMPLE_ESCAPES[letter] == c;
  }

  lemma HexIs(d: char, n: nat)
    requires HexWorth(d, n)
    ensures HexDigit(d) == n
  {
    assert HEX_DIGITS[n] as int == if n < 10 then 48 + n else 87 + n;
  }

  lemma {:induction false} HexPair(high: char, low: char, c: char)
    requires Spells(Hex(high, low), c, '"', false)
    ensures HexDigit(high) >= 0 && HexDigit(low) >= 0 && c as int == HexDigit(high) * 16 + HexDigit(low)
  {
    var m: nat, n: nat :| HexWorth(high, m) && HexWorth(low, n) && c as int == 16 * m + n;
    HexIs(high, m);
    HexIs(low, n);
  }

  lemma {:induction false} HexRead(high: char, low: char, t: string)
    requires HexDigit(high) >= 0 && HexDigit(low) >= 0
    ensures ReadEscape(['x', high, low] + t) == Ok(((HexDigit(high) * 16 + HexDigit(low)) as char, t))
  {
    var u := ['x', high, low] + t;
    assert u[3..] == t && u[0] == 'x' && u[1] == high && u[2] == low;
    assert 'x' !in SIMPLE_ESCAPES;
  }

  lemma {:induction false} HexEscape(high: char, low: char, c: char, t: string)
    requires Spells(Hex(high, low), c, '"', false)
    ensures ReadEscape(['x', high, low] + t) == Ok((c, t))
  {
    HexPair(high, low, c);
    HexRead(high, low, t);
  }

  lemma {:induction false} CodeEscape(digits: string, c: char, t: string)
    requires 1 <= |digits| <= 3 && All(digits, IsDigit) && DecimalValue(digits) == c as nat < 256
    requires t != [] && IsDigit(t[0]) ==> |digits| == 3
    ensures ReadEscape(digits + t) == Ok((c, t))
  {
    var u := digits + t;
    assert forall i :: 0 <= i < |digits| ==> u[i] == digits[i];
    assert |u| > |digits| ==> u[|digits|] == t[0];
    assert EscapeDigits(u) == |digits|;
    assert u[..|digits|] == digits && u[|digits|..] == t;
    assert digits[0] !in SIMPLE_ESCAPES && digits[0] != 'x';
  }

  lemma {:induction false} BrokenEscape(t: string)
    ensures ReadEscape("\n" + t) == Ok((10 as char, t))
  {
    assert ("\n" + t)[1..] == t;
  }

  /** Any spelling of a byte behind a backslash reads as that byte. */
  lemma {:induction false} EscapeBack(b: Byte, c: char, quote: char, t: string)
    requires !b.Itself? && Spells(b, c, quote, t != [] && IsDigit(t[0]))
    ensures ReadEscape(EscapeText(b) + t) == Ok((c, t))
  {
    match b
    case Named(letter) => NamedEscape(letter, c, t);
    case Hex(high, low) => HexEscape(high, low, c, t);
    case Code(digits) => CodeEscape(digits, c, t);
    case Broken => BrokenEscape(t);
  }

  predicate ShortReads(quote: char, t: string, acc: string, s: string, rest: string) {
    ReadShortBody(quote, t, acc) == Ok((s, rest))
  }

  lemma {:induction false} PlainRead(c: char, quote: char, t: string, acc: string, s: string, rest: string)
    requires c != quote && c != '\\' && c != '\n' && ShortReads(quote, t, acc + [c], s, rest)
    ensures ShortReads(quote, [c] + t, acc, s, rest)
  {
    assert ([c] + t)[1..] == t;
  }

  lemma {:induction false} EscapeRead(body: string, c: char, quote: char, t: string, acc: string, s: string, rest: string)
    requires quote != '\\' && ReadEscape(body + t) == Ok((c, t)) && ShortReads(quote, t, acc + [c], s, rest)
    ensures ShortReads(quote, ['\\'] + (body + t), acc, s, rest)
  {
    assert (['\\'] + (body + t))[1..] == body + t;
  }

  lemma {:induction false} ByteReads(b: Byte, c: char, quote: char, t: string, acc: string, s: string, rest: string)
    requires (quote == '"' || quote == '\'') && Spells(b, c, quote, t != [] && IsDigit(t[0]))
    requires ShortReads(quote, t, acc + [c], s, rest)
    ensures ShortReads(quote, ByteText(b) + t, acc, s, rest)
  {
    if b.Itself? {
      PlainRead(c, quote, t, acc, s, rest);
    } else {
      EscapeBack(b, c, quote, t);
      EscapeRead(EscapeText(b), c, quote, t, acc, s, rest);
      Regroup(['\\'], EscapeText(b), t);
    }
  }

  lemma {:induction false} NextDigit(bs: seq<Byte>, quote: char, rest: string)
    requires quote == '"' || quote == '\''
    ensures
      var t := BytesText(bs) + ([quote] + rest);
      t != [] && (IsDigit(t[0]) <==> StartsDigit(bs))
  {
    if bs != [] { assert ByteText(bs[0]) != []; }
  }

  lemma {:induction false} SpellsRest(bs: seq<Byte>, s: string, quote: char)
    requires SpellsAll(bs, s, quote) && bs != []
    ensures Spells(bs[0], s[0], quote, StartsDigit(bs[1..])) && SpellsAll(bs[1..], s[1..], quote)
  {
    forall i | 0 <= i < |bs| - 1 ensures Spells(bs[1..][i], s[1..][i], quote, StartsDigit(bs[1..][i + 1..])) {
      assert bs[1..][i + 1..] == bs[i + 2..];
      assert Spells(bs[i + 1], s[i + 1], quote, StartsDigit(bs[i + 2..]));
    }
  }

  lemma {:induction false} BytesRead(bs: seq<Byte>, s: string, quote: char, acc: string, rest: string)
    requires (quote == '"' || quote == '\'') && SpellsAll(bs, s, quote)
    ensures ShortReads(quote, BytesText(bs) + ([quote] + rest), acc, acc + s, rest)
  {
    var end := [quote] + rest;
    if bs == [] {
      assert BytesText(bs) + end == end && end[1..] == rest && acc + s == acc;
    } else {
      SpellsRest(bs, s, quote);
      BytesRead(bs[1..], s[1..], quote, acc + [s[0]], rest);
      assert acc + [s[0]] + s[1..] == acc + s;
      NextDigit(bs[1..], quote, rest);
      ByteReads(bs[0], s[0], quote, BytesText(bs[1..]) + end, acc, acc + s, rest);
      Regroup(ByteText(bs[0]), BytesText(bs[1..]), end);
    }
  }

  /** A string in either quote reads as the bytes it spells, in whatever way each of them
      is spelled. */
  lemma {:induction false} ShortStringBack(bs: seq<Byte>, s: string, quote: char, rest: string)
    requires (quote == '"' || quote == '\'') && SpellsAll(bs, s, quote)
    ensures ReadShort([quote] + (BytesText(bs) + ([quote] + rest))) == Ok((s, rest))
  {
    BytesRead(bs, s, quote, "", rest);
    var t := [quote] + (BytesText(bs) + ([quote] + rest));
    assert t[1..] == BytesText(bs) + ([quote] + rest) && "" + s == s;
  }

  // ---- long strings ----------------------------------------------------------

  /** A character of a long string, or the end of a line in one of its four forms. */
  datatype Piece = Letter(c: char) | LineEnd(text: string)

  predicate PieceOk(p: Piece) {
    match p
    case Letter(c) => c != '\n' && c != '\r'
    case LineEnd(text) => text == "\n" || text == "\r" || text == "\r\n" || text == "\n\r"
  }

  /** All pieces are proper, and no two line ends look like one. */
  predicate PiecesOk(ps: seq<Piece>) {
    && (forall i :: 0 <= i < |ps| ==> PieceOk(ps[i]))
    && forall i :: 0 < i < |ps| ==>
         ps[i - 1].LineEnd? && |ps[i - 1].text| == 1 && ps[i].LineEnd? ==> ps[i].text[..1] == ps[i - 1].text
  }

  function PieceText(p: Piece): string {
    if p.Letter? then [p.c] else p.text
  }

  function PiecesText(ps: seq<Piece>): string {
    if ps == [] then "" else PieceText(ps[0]) + PiecesText(ps[1..])
  }

  /** Every line end stands for a line feed. */
  function PiecesMean(ps: seq<Piece>): (s: string)
    ensures |s| == |ps| && forall i :: 0 <= i < |ps| ==> s[i] == if ps[i].Letter? then ps[i].c else '\n'
  {
    seq(|ps|, i requires 0 <= i < |ps| => if ps[i].Letter? then ps[i].c else '\n')
  }

  /** A line end right behind the opening bracket is not part of the string. */
  function LongMeans(ps: seq<Piece>): string {
    PiecesMean(if ps != [] && ps[0].LineEnd? then ps[1..] else ps)
  }

  lemma {:induction false} FoldOne(p: Piece, t: string)
    requires PieceOk(p) && (p.LineEnd? && |p.text| == 1 && t != [] ==> t[0] == p.text[0] || (t[0] != '\n' && t[0] != '\r'))
    ensures FoldNewlines(PieceText(p) + t) == [if p.Letter? then p.c else '\n'] + FoldNewlines(t)
  {
    var u := PieceText(p) + t;
    if p.LineEnd? && |p.text| == 2 {
      assert u[2..] == t;
    } else {
      assert u[1..] == t;
    }
  }

  lemma {:induction false} PiecesStart(ps: seq<Piece>)
    requires PiecesOk(ps) && ps != []
    ensures PiecesText(ps) != [] && PiecesText(ps)[0] == PieceText(ps[0])[0]
    ensures ps[0].Letter? ==> PiecesText(ps)[0] != '\n' && PiecesText(ps)[0] != '\r'
  {
    assert PieceOk(ps[0]);
  }

  /** What stands behind a line end does not run into it. */
  lemma {:induction false} PieceEnds(ps: seq<Piece>)
    requires PiecesOk(ps) && ps != [] && ps[0].LineEnd? && |ps[0].text| == 1
    ensures
      var t := PiecesText(ps[1..]);
      t != [] ==> t[0] == ps[0].text[0] || (t[0] != '\n' && t[0] != '\r')
  {
    if |ps| > 1 {
      PiecesStart(ps[1..]);
      if ps[1].LineEnd? {
        assert PieceOk(ps[1]) && ps[1].text[..1] == ps[0].text;
        assert ps[1].text[0] == ps[1].text[..1][0];
      }
    }
  }

  lemma {:induction false} MeanSplit(ps: seq<Piece>)
    requires ps != []
    ensures PiecesMean(ps) == [if ps[0].Letter? then ps[0].c else '\n'] + PiecesMean(ps[1..])
  {
  }

  lemma {:induction false} PiecesFold(ps: seq<Piece>)
    requires PiecesOk(ps)
    ensures FoldNewlines(PiecesText(ps)) == PiecesMean(ps)
  {
    if ps != [] {
      PiecesFold(ps[1..]);
      assert PieceOk(ps[0]);
      if ps[0].LineEnd? && |ps[0].text| == 1 { PieceEnds(ps); }
      FoldOne(ps[0], PiecesText(ps[1..]));
      MeanSplit(ps);
    }
  }

  lemma {:induction false} UsableTail(s: string, n: nat, k: nat)
    requires n <= |s| && Usable(s, k)
    ensures Usable(s[n..], k)
    decreases n
  {
    if n == 0 {
      assert s[0..] == s;
    } else {
      LuaRoundTrip.UsableSuffix(s, k);
      UsableTail(s[1..], n - 1, k);
      assert s[1..][n - 1..] == s[n..];
    }
  }

  /** The pieces behind a line end that is dropped. */
  function Kept(ps: seq<Piece>): seq<Piece> {
    if ps != [] && ps[0].LineEnd? then ps[1..] else ps
  }

  lemma {:induction false} FirstDropped(ps: seq<Piece>, tail: string)
    requires PiecesOk(ps) && tail != [] && tail[0] == ']'
    ensures DropNewline(PiecesText(ps) + tail) == PiecesText(Kept(ps)) + tail
  {
    if ps == [] {
      assert PiecesText(ps) + tail == tail;
    } else {
      assert PieceOk(ps[0]);
      var t := PiecesText(ps[1..]) + tail;
      Regroup(PieceText(ps[0]), PiecesText(ps[1..]), tail);
      if ps[0].LineEnd? && |ps[0].text| == 1 { PieceEnds(ps); }
      DropFirst(ps[0], t);
    }
  }

  lemma {:induction false} DropFirst(p: Piece, t: string)
    requires PieceOk(p) && t != []
    requires p.LineEnd? && |p.text| == 1 ==> t[0] == p.text[0] || (t[0] != '\n' && t[0] != '\r')
    ensures DropNewline(PieceText(p) + t) == if p.LineEnd? then t else PieceText(p) + t
  {
    var u := PieceText(p) + t;
    if p.LineEnd? && |p.text| == 2 {
      assert u[2..] == t;
    } else {
      assert u[1..] == t;
    }
  }

  lemma {:induction false} KeptUsable(ps: seq<Piece>, k: nat)
    requires PiecesOk(ps) && Usable(PiecesText(ps), k)
    ensures PiecesOk(Kept(ps)) && Usable(PiecesText(Kept(ps)), k)
  {
    if ps != [] && ps[0].LineEnd? {
      UsableTail(PiecesText(ps), |ps[0].text|, k);
      assert PiecesText(ps)[|ps[0].text|..] == PiecesText(ps[1..]);
    }
  }

  function LongLiteral(k: nat, ps: seq<Piece>): string {
    "[" + Repeat('=', k) + "[" + (PiecesText(ps) + ("]" + Repeat('=', k) + "]"))
  }

  lemma {:induction false} LongSplit(k: nat, ps: seq<Piece>, rest: string)
    ensures LongLiteral(k, ps) + rest == OpenBracket(k) + (PiecesText(ps) + (CloseBracket(k) + rest))
  {
    Regroup(OpenBracket(k), PiecesText(ps) + CloseBracket(k), rest);
    Regroup(PiecesText(ps), CloseBracket(k), rest);
  }

  /** A long string of any level reads as its pieces mean, when its closing bracket does not
      occur in it. */
  lemma {:induction false} LongStringBack(k: nat, ps: seq<Piece>, rest: string)
    requires PiecesOk(ps) && Usable(PiecesText(ps), k)
    ensures ReadLong(LongLiteral(k, ps) + rest) == Ok(Long(LongMeans(ps), rest))
  {
    var kept := PiecesText(Kept(ps));
    LongSplit(k, ps, rest);
    KeptUsable(ps, k);
    FirstDropped(ps, CloseBracket(k) + rest);
    LuaRoundTrip.FirstClose(kept, k, rest);
    Regroup(kept, CloseBracket(k), rest);
    LuaRoundTrip.ReadLongStep(k, PiecesText(ps) + (CloseBracket(k) + rest), kept, rest);
    PiecesFold(Kept(ps));
  }

  // ---- numerals --------------------------------------------------------------

  datatype Fraction = NoPoint | Point(digits: string)

  function NumeralText(negative: bool, whole: string, fraction: Fraction): string {
    (if negative then "-" else "") + (whole + if fraction.Point? then "." + fraction.digits else "")
  }

  function Signed(negative: bool, m: nat): int {
    if negative then 0 - m else m
  }

  /** The numeral's digits, brought to five places behind the point. */
  function FivePlaces(whole: string, digits: string): string
    requires |digits| <= 5
  {
    whole + digits + Repeat('0', 5 - |digits|)
  }

  /** The numeral is one whose number the model has. */
  predicate NumeralOk(negative: bool, whole: string, fraction: Fraction) {
    && All(whole, IsDigit)
    && match fraction
       case NoPoint => whole != "" && InInt64(Signed(negative, DecimalValue(whole)))
       case Point(digits) =>
         && All(digits, IsDigit) && |digits| <= 5 && (whole == "" ==> negative && digits != "")
         && All(FivePlaces(whole, digits), IsDigit)
         && InDecimals(Signed(negative, DecimalValue(FivePlaces(whole, digits))))
  }

  function NumeralMeans(negative: bool, whole: string, fraction: Fraction): Value
    requires NumeralOk(negative, whole, fraction)
  {
    match fraction
    case NoPoint => Int(Signed(negative, DecimalValue(whole)))
    case Point(digits) => Dec(Signed(negative, DecimalValue(FivePlaces(whole, digits))))
  }

  /** Text that a word does not run into. */
  predicate WordEnds(t: string) {
    t == [] || !IsIdentPart(t[0])
  }

  /** Text that a numeral does not run into. */
  predicate NumeralEnds(fraction: Fraction, t: string) {
    t == [] || !(IsDigit(t[0]) || t[0] == 'e' || t[0] == 'E' || (fraction.NoPoint? && t[0] == '.'))
  }

  /** Text that neither runs into. */
  predicate Apart(t: string) {
    t == [] || !(IsIdentPart(t[0]) || t[0] == '.')
  }

  lemma ShiftOne(a: nat, p: nat, b: nat, d: nat)
    ensures (a * p + b) * 10 + d == a * (10 * p) + (b * 10 + d)
  {
  }

  lemma {:induction false} DecimalAppend(a: string, b: string)
    requires All(a, IsDigit) && All(b, IsDigit)
    ensures All(a + b, IsDigit) && DecimalValue(a + b) == DecimalValue(a) * Pow10(|b|) + DecimalValue(b)
  {
    if b == [] {
      assert a + b == a;
    } else {
      var n := |b| - 1;
      DecimalAppend(a, b[..n]);
      assert (a + b)[..|a + b| - 1] == a + b[..n] && (a + b)[|a + b| - 1] == b[n];
      ShiftOne(DecimalValue(a), Pow10(n), DecimalValue(b[..n]), DigitValue(b[n]));
    }
  }

  lemma {:induction false} ZerosWorth(n: nat)
    ensures All(Repeat('0', n), IsDigit) && DecimalValue(Repeat('0', n)) == 0
  {
    if n > 0 {
      ZerosWorth(n - 1);
      assert Repeat('0', n)[..n - 1] == Repeat('0', n - 1);
    }
  }

  lemma {:induction false} FractionWorth(digits: string, w: nat)
    requires All(digits, IsDigit) && |digits| <= w
    ensures
      var t := digits + Repeat('0', w - |digits|);
      All(t, IsDigit) && DecimalValue(t) == FractionValue(digits, w)
  {
    ZerosWorth(w - |digits|);
    if digits == [] {
      assert digits + Repeat('0', w) == Repeat('0', w);
    } else {
      var d, rest := digits[..1], digits[1..] + Repeat('0', w - |digits|);
      FractionWorth(digits[1..], w - 1);
      DecimalAppend(d, rest);
      assert digits + Repeat('0', w - |digits|) == d + rest;
      assert DecimalValue(d) == DigitValue(digits[0]) by { assert d[..0] == []; }
    }
  }

  lemma {:induction false} PlacesWorth(whole: string, digits: string)
    requires All(whole, IsDigit) && All(digits, IsDigit) && |digits| <= 5
    ensures All(FivePlaces(whole, digits), IsDigit)
    ensures DecimalValue(FivePlaces(whole, digits)) == DecimalValue(whole) * UNIT + FractionValue(digits, 5)
  {
    var t := digits + Repeat('0', 5 - |digits|);
    FractionWorth(digits, 5);
    DecimalAppend(whole, t);
    Regroup(whole, digits, Repeat('0', 5 - |digits|));
    assert Pow10(5) == UNIT;
  }

  lemma {:induction false} RunStops(digits: string, rest: string)
    requires All(digits, IsDigit) && (rest == [] || !IsDigit(rest[0]))
    ensures Run(digits + rest, IsDigit) == |digits|
    ensures (digits + rest)[..|digits|] == digits && (digits + rest)[|digits|..] == rest
  {
    RunAppend(digits, rest, IsDigit);
  }

  predicate NumberReads(t: string, v: Value, rest: string) {
    t != [] && (t[0] == '-' || IsDigit(t[0])) && ReadNumber(t) == Ok((v, rest))
  }

  lemma {:induction false} WholeRead(negative: bool, whole: string, rest: string)
    requires NumeralOk(negative, whole, NoPoint) && NumeralEnds(NoPoint, rest)
    ensures WholeNumber(negative, whole, rest) == Ok((NumeralMeans(negative, whole, NoPoint), rest))
  {
  }

  lemma {:induction false} PointRead(negative: bool, whole: string, digits: string, rest: string)
    requires NumeralOk(negative, whole, Point(digits)) && NumeralEnds(Point(digits), rest)
    ensures FractionNumber(negative, whole, digits + rest) == Ok((NumeralMeans(negative, whole, Point(digits)), rest))
  {
    RunStops(digits, rest);
    PlacesWorth(whole, digits);
  }

  lemma {:induction false} NumberSplit(negative: bool, u: string, digits: string, behind: string)
    requires u == digits + behind && All(digits, IsDigit) && (behind == [] || !IsDigit(behind[0]))
    requires digits != "" || (negative && behind != [])
    ensures
      var t := (if negative then "-" else "") + u;
      && t != [] && (t[0] == '-' || IsDigit(t[0]))
      && ReadNumber(t) == if StartsWith(behind, '.') then FractionNumber(negative, digits, behind[1..])
                          else WholeNumber(negative, digits, behind)
  {
    var t := (if negative then "-" else "") + u;
    RunStops(digits, behind);
    if negative {
      assert t[1..] == u;
    } else {
      assert t == u && t[0] == digits[0];
    }
  }

  lemma {:induction false} NumeralSplit(negative: bool, whole: string, fraction: Fraction, rest: string)
    ensures
      NumeralText(negative, whole, fraction) + rest
      == (if negative then "-" else "") + (whole + if fraction.Point? then "." + (fraction.digits + rest) else rest)
  {
    var sign := if negative then "-" else "";
    match fraction
    case NoPoint =>
      Regroup(sign, whole, rest);
      assert whole + "" == whole;
    case Point(digits) =>
      Regroup(sign, whole + ("." + digits), rest);
      Regroup(whole, "." + digits, rest);
      Regroup(".", digits, rest);
  }

  lemma {:induction false} WholeBack(negative: bool, whole: string, rest: string)
    requires NumeralOk(negative, whole, NoPoint) && NumeralEnds(NoPoint, rest)
    ensures NumberReads((if negative then "-" else "") + (whole + rest), NumeralMeans(negative, whole, NoPoint), rest)
  {
    NumberSplit(negative, whole + rest, whole, rest);
    WholeRead(negative, whole, rest);
  }

  lemma {:induction false} PointBack(negative: bool, whole: string, digits: string, rest: string)
    requires NumeralOk(negative, whole, Point(digits)) && NumeralEnds(Point(digits), rest)
    ensures
      NumberReads((if negative then "-" else "") + (whole + ("." + (digits + rest))),
                  NumeralMeans(negative, whole, Point(digits)), rest)
  {
    var behind := "." + (digits + rest);
    NumberSplit(negative, whole + behind, whole, behind);
    assert behind[1..] == digits + rest;
    PointRead(negative, whole, digits, rest);
  }

  /** A numeral reads as the number its digits spell. */
  lemma {:induction false} NumeralBack(negative: bool, whole: string, fraction: Fraction, rest: string)
    requires NumeralOk(negative, whole, fraction) && NumeralEnds(fraction, rest)
    ensures NumberReads(NumeralText(negative, whole, fraction) + rest, NumeralMeans(negative, whole, fraction), rest)
  {
    NumeralSplit(negative, whole, fraction, rest);
    match fraction
    case NoPoint => WholeBack(negative, whole, rest);
    case Point(digits) => PointBack(negative, whole, digits, rest);
  }
}
