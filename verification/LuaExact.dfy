/** What the parser accepts: nothing but the texts that a syntax tree spells. */
module LuaExact {
  import opened Text
  import opened LuaValue
  import opened LuaText
  import opened LuaGrammar
  import opened LuaSyntax
  import opened LuaReading
  import LuaRoundTrip

  // ---- white space and comments ----------------------------------------------

  lemma {:induction false} OneMoreGap(g: Gap, gs: seq<Gap>, t: string, u: string, rest: string)
    requires GapOk(g) && SpaceOk(gs) && t == GapText(g) + u && u == SpaceText(gs) + rest
    ensures SpaceOk([g] + gs) && t == SpaceText([g] + gs) + rest
  {
    assert ([g] + gs)[0] == g && ([g] + gs)[1..] == gs;
    Regroup(GapText(g), SpaceText(gs), rest);
  }

  lemma {:induction false} CommentParts(t: string, n: nat)
    requires |t| > 1 && t[0] == '-' && t[1] == '-' && n == Run(t[2..], InComment) && 2 + n < |t|
    ensures t == "--" + (t[2..2 + n] + ("\n" + t[2 + n + 1..])) && '\n' !in t[2..2 + n]
  {
    var u := t[2..];
    assert u[n] == t[2 + n] && !InComment(u[n]);
    assert forall i :: 0 <= i < n ==> t[2..2 + n][i] == u[i] && InComment(u[i]);
    assert t[..2] == "--";
  }

  /** A comment that a line end closes. */
  lemma {:induction false} ClosedComment(t: string, text: string)
    requires |t| > 1 && t[0] == '-' && t[1] == '-' && text == t[2..2 + Run(t[2..], InComment)]
    requires !(|t| > 3 && t[2] == '[' && (t[3] == '[' || t[3] == '=')) && 2 + |text| < |t|
    ensures GapOk(Comment(text)) && t == GapText(Comment(text)) + t[2 + |text| + 1..]
    ensures SkipSpace(t) == SkipSpace(t[2 + |text| + 1..])
  {
    var u := t[2 + |text| + 1..];
    CommentParts(t, |text|);
    if |text| >= 2 { assert text[0] == t[2] && text[1] == t[3]; }
    CommentSkipped(text, u);
    Regroup("--", text + "\n", u);
    Regroup(text, "\n", u);
  }

  /** What is skipped before a text is space. */
  lemma {:induction false} SkippedOnly(t: string) returns (gs: seq<Gap>)
    requires SkipSpace(t) != ""
    ensures SpaceOk(gs) && t == SpaceText(gs) + SkipSpace(t)
    decreases |t|
  {
    if IsSpace(t[0]) {
      var more := SkippedOnly(t[1..]);
      assert t == GapText(Blank(t[0])) + t[1..];
      OneMoreGap(Blank(t[0]), more, t, t[1..], SkipSpace(t));
      gs := [Blank(t[0])] + more;
    } else if SkipSpace(t) == t {
      gs := [];
      assert SpaceText(gs) + t == t;
    } else {
      var text := t[2..2 + Run(t[2..], InComment)];
      ClosedComment(t, text);
      var u := t[2 + |text| + 1..];
      var more := SkippedOnly(u);
      OneMoreGap(Comment(text), more, t, u, SkipSpace(t));
      gs := [Comment(text)] + more;
    }
  }

  /** What is skipped at the end of a file is space and an ending. */
  lemma {:induction false} SkippedAll(t: string) returns (gs: seq<Gap>, e: Ending)
    requires SkipSpace(t) == ""
    ensures SpaceOk(gs) && EndingOk(e) && t == SpaceText(gs) + EndingText(e)
    decreases |t|
  {
    if t == "" {
      gs, e := [], Plain;
    } else if IsSpace(t[0]) {
      var more;
      more, e := SkippedAll(t[1..]);
      assert t == GapText(Blank(t[0])) + t[1..];
      OneMoreGap(Blank(t[0]), more, t, t[1..], EndingText(e));
      gs := [Blank(t[0])] + more;
    } else {
      var text := t[2..2 + Run(t[2..], InComment)];
      if 2 + |text| == |t| {
        gs, e := [], Unclosed(text);
        LastComment(t, text);
      } else {
        ClosedComment(t, text);
        var u := t[2 + |text| + 1..];
        var more;
        more, e := SkippedAll(u);
        OneMoreGap(Comment(text), more, t, u, EndingText(e));
        gs := [Comment(text)] + more;
      }
    }
  }

  lemma {:induction false} LastComment(t: string, text: string)
    requires |t| > 1 && t[0] == '-' && t[1] == '-' && text == t[2..] && |text| == Run(t[2..], InComment)
    requires !(|t| > 3 && t[2] == '[' && (t[3] == '[' || t[3] == '='))
    ensures EndingOk(Unclosed(text)) && t == SpaceText([]) + EndingText(Unclosed(text))
  {
    assert t[..2] == "--" && t == "--" + text;
    EndingPlain(text);
    if |text| >= 2 { assert text[0] == t[2] && text[1] == t[3]; }
  }

  lemma {:induction false} EndingPlain(text: string)
    requires |text| == Run(text, InComment)
    ensures '\n' !in text
  {
    assert forall i :: 0 <= i < |text| ==> InComment(text[i]);
  }

  // ---- short strings ---------------------------------------------------------

  /** What an escape reads is spelled. */
  lemma {:induction false} EscapeOnly(t: string, quote: char) returns (b: Byte)
    requires ReadEscape(t).Ok?
    ensures
      var (c, rest) := ReadEscape(t).value;
      !b.Itself? && t == EscapeText(b) + rest && Spells(b, c, quote, rest != [] && IsDigit(rest[0]))
  {
    var (c, rest) := ReadEscape(t).value;
    if t[0] in SIMPLE_ESCAPES {
      if t[0] == '\n' {
        b := Broken;
        assert t == "\n" + t[1..];
      } else {
        b := Named(t[0]);
        NamedOnly(t[0]);
        assert t == [t[0]] + t[1..];
      }
    } else if t[0] == 'x' {
      b := HexOnly(t, quote, rest != [] && IsDigit(rest[0]));
    } else {
      b := Code(t[..EscapeDigits(t)]);
      CodeOnly(t, quote);
    }
  }

  lemma {:induction false} NamedOnly(letter: char)
    requires letter in SIMPLE_ESCAPES && letter != '\n'
    ensures Names(letter, SIMPLE_ESCAPES[letter] as nat)
  {
    var i := match letter
      case 'a' => 0 case 'b' => 1 case 't' => 2 case 'n' => 3 case 'v' => 4
      case 'f' => 5 case 'r' => 6 case '"' => 7 case '\'' => 8 case _ => 9;
    assert NAMED[i] == (letter, SIMPLE_ESCAPES[letter] as nat);
  }

  lemma {:induction false} HexDigitOnly(c: char)
    requires HexDigit(c) >= 0
    ensures HexWorth(c, HexDigit(c))
  {
    var n := HexDigit(c);
    assert HEX_DIGITS[n] as int == if n < 10 then 48 + n else 87 + n;
  }

  lemma {:induction false} HexOnly(t: string, quote: char, digitFollows: bool) returns (b: Byte)
    requires t != [] && t[0] == 'x' && ReadEscape(t).Ok?
    ensures
      var (c, rest) := ReadEscape(t).value;
      !b.Itself? && t == EscapeText(b) + rest && Spells(b, c, quote, digitFollows)
  {
    b := Hex(t[1], t[2]);
    assert 'x' !in SIMPLE_ESCAPES;
    HexDigitOnly(t[1]);
    HexDigitOnly(t[2]);
    var m: nat, n: nat := HexDigit(t[1]), HexDigit(t[2]);
    assert t == ['x', t[1], t[2]] + t[3..];
    assert HexWorth(t[1], m) && HexWorth(t[2], n) && ((m * 16 + n) as char) as int == 16 * m + n;
  }

  lemma {:induction false} CodeOnly(t: string, quote: char)
    requires t != [] && t[0] !in SIMPLE_ESCAPES && t[0] != 'x' && ReadEscape(t).Ok?
    ensures
      var (c, rest) := ReadEscape(t).value;
      var digits := t[..EscapeDigits(t)];
      t == digits + rest && Spells(Code(digits), c, quote, rest != [] && IsDigit(rest[0]))
  {
    var n := EscapeDigits(t);
    assert t == t[..n] + t[n..];
    assert n < 3 && n < |t| ==> !IsDigit(t[n]);
  }

  lemma {:induction false} PlainStep(quote: char, t: string, acc: string)
    requires t != [] && t[0] != quote && t[0] != '\\' && ReadShortBody(quote, t, acc).Ok?
    ensures t[0] != '\n' && ReadShortBody(quote, t, acc) == ReadShortBody(quote, t[1..], acc + [t[0]])
    ensures t == ByteText(Itself(t[0])) + t[1..]
  {
  }

  lemma {:induction false} EscapeStep(quote: char, t: string, acc: string) returns (b: Byte)
    requires t != [] && t[0] != quote && t[0] == '\\' && ReadShortBody(quote, t, acc).Ok?
    ensures ReadEscape(t[1..]).Ok?
    ensures
      var (c, u) := ReadEscape(t[1..]).value;
      && |u| < |t| && ReadShortBody(quote, t, acc) == ReadShortBody(quote, u, acc + [c])
      && t == ByteText(b) + u && Spells(b, c, quote, u != [] && IsDigit(u[0]))
  {
    b := EscapeOnly(t[1..], quote);
    assert t == ['\\'] + t[1..];
    Regroup(['\\'], EscapeText(b), ReadEscape(t[1..]).value.1);
  }

  /** What stands between the quotes is spelled byte by byte. */
  lemma {:induction false} BytesOnly(quote: char, t: string, acc: string) returns (bs: seq<Byte>, s: string)
    requires (quote == '"' || quote == '\'') && ReadShortBody(quote, t, acc).Ok?
    ensures
      var r := ReadShortBody(quote, t, acc).value;
      r.0 == acc + s && SpellsAll(bs, s, quote) && t == BytesText(bs) + ([quote] + r.1)
    decreases |t|
  {
    var rest := ReadShortBody(quote, t, acc).value.1;
    if t[0] == quote {
      bs, s := [], "";
      assert t == [quote] + t[1..];
    } else {
      var b, c, u := Itself(t[0]), t[0], t[1..];
      if t[0] == '\\' {
        b := EscapeStep(quote, t, acc);
        c, u := ReadEscape(t[1..]).value.0, ReadEscape(t[1..]).value.1;
      } else {
        PlainStep(quote, t, acc);
      }
      var more, s' := BytesOnly(quote, u, acc + [c]);
      NextDigit(more, quote, rest);
      OneMoreByte(b, c, more, s', quote, u, [quote] + rest);
      bs, s := [b] + more, [c] + s';
      Regroup(acc, [c], s');
    }
  }

  lemma {:induction false} OneMoreByte(b: Byte, c: char, bs: seq<Byte>, s: string, quote: char, u: string, end: string)
    requires SpellsAll(bs, s, quote) && Spells(b, c, quote, StartsDigit(bs)) && u == BytesText(bs) + end
    ensures SpellsAll([b] + bs, [c] + s, quote) && ByteText(b) + u == BytesText([b] + bs) + end
  {
    var all, text := [b] + bs, [c] + s;
    assert all[1..] == bs;
    forall i | 0 <= i < |all| ensures Spells(all[i], text[i], quote, StartsDigit(all[i + 1..])) {
      assert all[i + 1..] == bs[i..];
      if i > 0 {
        assert Spells(bs[i - 1], s[i - 1], quote, StartsDigit(bs[i - 1 + 1..]));
      } else {
        assert bs[0..] == bs;
      }
    }
    Regroup(ByteText(b), BytesText(bs), end);
  }

  // ---- long strings ----------------------------------------------------------

  /** Any text is made of characters and line ends. */
  lemma {:induction false} PiecesOnly(t: string) returns (ps: seq<Piece>)
    ensures PiecesOk(ps) && PiecesText(ps) == t
    ensures ps != [] && ps[0].LineEnd? ==> t != [] && (|t| > 1 && IsPair(t) <==> |ps[0].text| == 2)
  {
    if t == "" {
      ps := [];
    } else if |t| > 1 && IsPair(t) {
      var more := PiecesOnly(t[2..]);
      ps := [LineEnd(t[..2])] + more;
      assert t == t[..2] + t[2..] && t[..2] == [t[0], t[1]];
      FirstPiece(LineEnd(t[..2]), more);
    } else {
      var more := PiecesOnly(t[1..]);
      var p := if t[0] == '\n' || t[0] == '\r' then LineEnd([t[0]]) else Letter(t[0]);
      ps := [p] + more;
      assert t == [t[0]] + t[1..];
      if p.LineEnd? && more != [] && more[0].LineEnd? {
        assert PieceOk(more[0]) && more[0].text[0] == t[1];
      }
      FirstPiece(p, more);
    }
  }

  predicate IsPair(t: string)
    requires |t| > 1
  {
    (t[0] == '\r' && t[1] == '\n') || (t[0] == '\n' && t[1] == '\r')
  }

  lemma {:induction false} FirstPiece(p: Piece, ps: seq<Piece>)
    requires PieceOk(p) && PiecesOk(ps)
    requires p.LineEnd? && |p.text| == 1 && ps != [] && ps[0].LineEnd? ==> ps[0].text[..1] == p.text
    ensures PiecesOk([p] + ps) && PiecesText([p] + ps) == PieceText(p) + PiecesText(ps)
  {
    var all := [p] + ps;
    assert all[1..] == ps;
    forall i | 0 < i < |all|
      ensures all[i - 1].LineEnd? && |all[i - 1].text| == 1 && all[i].LineEnd? ==> all[i].text[..1] == all[i - 1].text
    {
      if i > 1 { assert all[i] == ps[i - 1] && all[i - 1] == ps[i - 2]; }
    }
  }

  lemma HasAtPrefix(u: string, n: nat, p: string, i: nat)
    requires n <= |u| && HasAt(u[..n], p, i)
    ensures HasAt(u, p, i)
  {
    assert u[i..i + |p|] == u[..n][i..i + |p|];
  }

  lemma {:induction false} CloseIs(u: string, k: nat, n: nat)
    requires HasAt(u, CloseBracket(k), n)
    ensures n + k + 2 <= |u| && u[n] == ']' && u == u[..n] + (CloseBracket(k) + u[n + k + 2..])
  {
    var close := CloseBracket(k);
    assert |close| == k + 2;
    assert u[n..n + |close|][0] == close[0];
    assert u[n..] == u[n..n + |close|] + u[n + |close|..];
    assert u == u[..n] + u[n..];
  }

  lemma {:induction false} FirstIsUsable(u: string, k: nat, n: nat)
    requires Index(u, CloseBracket(k)) == n
    ensures n + k + 2 <= |u| && Usable(u[..n], k) && u == u[..n] + (CloseBracket(k) + u[n + k + 2..])
  {
    var close := CloseBracket(k);
    CloseIs(u, k, n);
    assert u[..n] + "]" == u[..n + 1];
    if Contains(u[..n + 1], close) {
      var i: nat :| i <= n + 1 && HasAt(u[..n + 1], close, i);
      HasAtPrefix(u, n + 1, close, i);
    }
  }

  /** Line ends before a text leave it usable. */
  lemma {:induction false} UsableBehind(d: char, s: string, k: nat)
    requires d != ']' && Usable(s, k)
    ensures Usable([d] + s, k)
  {
    var close, t := CloseBracket(k), [d] + s + "]";
    if Contains(t, close) {
      var i: nat :| i <= |t| && HasAt(t, close, i);
      assert close[0] == ']' && t[i..i + |close|][0] == t[i];
      assert t[1..] == s + "]";
      assert (s + "]")[i - 1..i - 1 + |close|] == t[i..i + |close|];
      assert HasAt(s + "]", close, i - 1);
    }
  }

  /** What stands before the rest of the content is dropped as a line end. */
  lemma {:induction false} DroppedOnly(t: string) returns (d: string)
    requires DropNewline(t) != ""
    ensures t == d + DropNewline(t) && (forall i :: 0 <= i < |d| ==> d[i] == '\n' || d[i] == '\r')
    ensures d == "" ==> t[0] != '\n' && t[0] != '\r'
    ensures d != "" ==> PieceOk(LineEnd(d)) && (|d| == 2 <==> |t| > 1 && IsPair(t))
  {
    d := t[..|t| - |DropNewline(t)|];
  }

  lemma {:induction false} KeptIs(d: string, raw: string, ps: seq<Piece>, t: string)
    requires PiecesOk(ps) && PiecesText(ps) == d + raw && t == d + raw + "]"
    requires (forall i :: 0 <= i < |d| ==> d[i] == '\n' || d[i] == '\r')
    requires (raw == "" || d != "" || (raw[0] != '\n' && raw[0] != '\r'))
    requires d != "" ==> PieceOk(LineEnd(d)) && (|d| == 2 <==> |t| > 1 && IsPair(t))
    requires ps != [] && ps[0].LineEnd? ==> (|d + raw| > 1 && IsPair(d + raw) <==> |ps[0].text| == 2)
    ensures PiecesText(Kept(ps)) == raw
  {
    if ps != [] {
      PiecesStart(ps);
      var first, more := PieceText(ps[0]), PiecesText(ps[1..]);
      assert first + more == d + raw && PieceOk(ps[0]);
      if d == "" {
        assert ps[0].Letter?;
      } else {
        assert ps[0].LineEnd? && |first| == |d|;
        assert more == (first + more)[|first|..] == (d + raw)[|d|..] == raw;
      }
    }
  }

  lemma {:induction false} RunOfEquals(u: string)
    ensures var k := Run(u, IsEquals); u == Repeat('=', k) + u[k..]
  {
    var k := Run(u, IsEquals);
    assert u[..k] == Repeat('=', k);
    assert u == u[..k] + u[k..];
  }

  lemma {:induction false} LongOpens(t: string)
    requires ReadLong(t).Ok? && ReadLong(t).value.Long?
    ensures t != [] && t[0] == '['
    ensures var k := Run(t[1..], IsEquals);
      k + 2 <= |t| && t[k + 1] == '[' && ReadLongBody(DropNewline(t[k + 2..]), k) == ReadLong(t)
  {
  }

  lemma {:induction false} OpenIs(t: string, k: nat)
    requires k + 2 <= |t| && t[0] == '[' && t[k + 1] == '[' && Run(t[1..], IsEquals) == k
    ensures t == OpenBracket(k) + t[k + 2..]
  {
    var u := t[1..];
    RunOfEquals(u);
    assert t == "[" + u && u[k..] == "[" + t[k + 2..];
    Regroup(Repeat('=', k), "[", t[k + 2..]);
    Regroup("[", Repeat('=', k) + "[", t[k + 2..]);
    Regroup("[", Repeat('=', k), "[");
  }

  lemma {:induction false} LongPieces(v: string, k: nat, raw: string, tail: string) returns (ps: seq<Piece>)
    requires DropNewline(v) == raw + tail && tail != "" && tail[0] == ']' && Usable(raw, k)
    ensures PiecesOk(ps) && Usable(PiecesText(ps), k) && PiecesOk(Kept(ps)) && PiecesText(Kept(ps)) == raw
    ensures v == PiecesText(ps) + tail
  {
    var d := DroppedOnly(v);
    ps := PiecesOnly(d + raw);
    DropUsable(d, raw, k);
    Regroup(d, raw, tail);
    ContentIs(d, raw, ps, v, tail);
  }

  lemma {:induction false} BodyOnly(u: string, k: nat) returns (raw: string, rest: string)
    requires ReadLongBody(u, k).Ok?
    ensures Usable(raw, k) && u == raw + (CloseBracket(k) + rest)
    ensures ReadLongBody(u, k) == Ok(LuaGrammar.Long(FoldNewlines(raw), rest))
  {
    var n := Index(u, CloseBracket(k));
    FirstIsUsable(u, k, n);
    raw, rest := u[..n], u[n + k + 2..];
  }

  /** What is read as a long string is one. */
  lemma {:induction false} LongOnly(t: string) returns (k: nat, ps: seq<Piece>)
    requires ReadLong(t).Ok? && ReadLong(t).value.Long?
    ensures PiecesOk(ps) && Usable(PiecesText(ps), k)
    ensures t == LongLiteral(k, ps) + ReadLong(t).value.rest && ReadLong(t).value.content == LongMeans(ps)
  {
    LongOpens(t);
    k := Run(t[1..], IsEquals);
    OpenIs(t, k);
    var v := t[k + 2..];
    var raw, rest := BodyOnly(DropNewline(v), k);
    ps := LongPieces(v, k, raw, CloseBracket(k) + rest);
    PiecesFold(Kept(ps));
    LongSplit(k, ps, rest);
  }

  lemma {:induction false} DropUsable(d: string, raw: string, k: nat)
    requires Usable(raw, k) && forall i :: 0 <= i < |d| ==> d[i] == '\n' || d[i] == '\r'
    ensures Usable(d + raw, k)
  {
    if d == "" {
      assert d + raw == raw;
    } else {
      DropUsable(d[1..], raw, k);
      UsableBehind(d[0], d[1..] + raw, k);
      assert d + raw == [d[0]] + (d[1..] + raw);
    }
  }

  lemma {:induction false} ContentIs(d: string, raw: string, ps: seq<Piece>, v: string, tail: string)
    requires PiecesOk(ps) && PiecesText(ps) == d + raw && v == d + raw + tail && tail != "" && tail[0] == ']'
    requires (forall i :: 0 <= i < |d| ==> d[i] == '\n' || d[i] == '\r')
    requires d == "" ==> v[0] != '\n' && v[0] != '\r'
    requires d != "" ==> PieceOk(LineEnd(d)) && (|d| == 2 <==> |v| > 1 && IsPair(v))
    requires ps != [] && ps[0].LineEnd? ==> (|d + raw| > 1 && IsPair(d + raw) <==> |ps[0].text| == 2)
    ensures PiecesText(Kept(ps)) == raw && PiecesOk(Kept(ps))
  {
    var t := d + raw + "]";
    assert |v| > 1 && |t| > 1 ==> v[0] == t[0] && v[1] == t[1];
    KeptIs(d, raw, ps, t);
  }

  // ---- numerals --------------------------------------------------------------

  lemma {:induction false} RunSplit(t: string)
    ensures var n := Run(t, IsDigit); All(t[..n], IsDigit) && t == t[..n] + t[n..]
  {
  }

  lemma {:induction false} WholeOnly(negative: bool, whole: string, t: string)
    requires All(whole, IsDigit) && WholeNumber(negative, whole, t).Ok?
    ensures NumeralOk(negative, whole, NoPoint) && !StartsExponent(t)
    ensures WholeNumber(negative, whole, t) == Ok((NumeralMeans(negative, whole, NoPoint), t))
  {
  }

  lemma {:induction false} PointOnly(negative: bool, whole: string, t: string)
    requires All(whole, IsDigit) && FractionNumber(negative, whole, t).Ok? && (whole == "" ==> negative)
    ensures
      var digits := t[..Run(t, IsDigit)];
      && NumeralOk(negative, whole, Point(digits)) && t == digits + t[|digits|..]
      && NumeralEnds(Point(digits), t[|digits|..])
      && FractionNumber(negative, whole, t) == Ok((NumeralMeans(negative, whole, Point(digits)), t[|digits|..]))
  {
    RunSplit(t);
    PlacesWorth(whole, t[..Run(t, IsDigit)]);
  }

  /** A numeral in front of rest, read as v. */
  ghost predicate NumeralIn(t: string, negative: bool, whole: string, fraction: Fraction, v: Value, rest: string) {
    && NumeralOk(negative, whole, fraction) && v == NumeralMeans(negative, whole, fraction)
    && t == NumeralText(negative, whole, fraction) + rest && NumeralEnds(fraction, rest)
  }

  lemma {:induction false} PointNumeral(negative: bool, whole: string, v: string)
    requires All(whole, IsDigit) && (whole == "" ==> negative) && FractionNumber(negative, whole, v).Ok?
    ensures
      var r := FractionNumber(negative, whole, v).value;
      NumeralIn((if negative then "-" else "") + (whole + ("." + v)), negative, whole, Point(v[..Run(v, IsDigit)]), r.0, r.1)
  {
    PointOnly(negative, whole, v);
    var digits := v[..Run(v, IsDigit)];
    NumeralSplit(negative, whole, Point(digits), v[|digits|..]);
  }

  lemma {:induction false} WholeNumeral(negative: bool, whole: string, v: string)
    requires All(whole, IsDigit) && WholeNumber(negative, whole, v).Ok?
    requires v == [] || !(IsDigit(v[0]) || v[0] == '.')
    ensures
      var r := WholeNumber(negative, whole, v).value;
      NumeralIn((if negative then "-" else "") + (whole + v), negative, whole, NoPoint, r.0, r.1)
  {
    WholeOnly(negative, whole, v);
    NumeralSplit(negative, whole, NoPoint, v);
  }

  lemma {:induction false} PointParts(t: string, negative: bool, whole: string, v: string)
    requires t == (if negative then "-" else "") + (whole + ("." + v))
    requires All(whole, IsDigit) && (whole == "" ==> negative) && FractionNumber(negative, whole, v).Ok?
    ensures
      && t != [] && (t[0] == '-' || IsDigit(t[0])) && ReadNumber(t).Ok?
      && NumeralIn(t, negative, whole, Point(v[..Run(v, IsDigit)]), ReadNumber(t).value.0, ReadNumber(t).value.1)
  {
    NumberSplit(negative, whole + ("." + v), whole, "." + v);
    assert ("." + v)[1..] == v;
    PointNumeral(negative, whole, v);
  }

  lemma {:induction false} WholeParts(t: string, negative: bool, whole: string, v: string)
    requires t == (if negative then "-" else "") + (whole + v)
    requires All(whole, IsDigit) && whole != "" && (v == [] || !(IsDigit(v[0]) || v[0] == '.'))
    requires WholeNumber(negative, whole, v).Ok?
    ensures
      && t != [] && (t[0] == '-' || IsDigit(t[0])) && ReadNumber(t).Ok?
      && NumeralIn(t, negative, whole, NoPoint, ReadNumber(t).value.0, ReadNumber(t).value.1)
  {
    NumberSplit(negative, whole + v, whole, v);
    WholeNumeral(negative, whole, v);
  }

  lemma {:induction false} NumberIs(t: string, negative: bool, u: string)
    requires t != [] && (t[0] == '-' || IsDigit(t[0]))
    requires negative == (t[0] == '-') && u == if negative then t[1..] else t
    ensures
      var n := Run(u, IsDigit);
      && All(u[..n], IsDigit)
      && ReadNumber(t) == if StartsWith(u[n..], '.') then FractionNumber(negative, u[..n], u[n..][1..])
                          else WholeNumber(negative, u[..n], u[n..])
  {
    RunSplit(u);
  }

  lemma {:induction false} SomeDigits(negative: bool, whole: string, v: string)
    requires All(whole, IsDigit) && WholeNumber(negative, whole, v).Ok?
    ensures whole != ""
  {
  }

  lemma {:induction false} NumberParts(t: string, negative: bool, u: string)
    returns (whole: string, point: bool, v: string)
    requires t != [] && (t[0] == '-' || IsDigit(t[0])) && ReadNumber(t).Ok?
    requires negative == (t[0] == '-') && u == if negative then t[1..] else t
    ensures u == whole + (if point then "." + v else v) && All(whole, IsDigit) && (whole == "" ==> negative)
    ensures if point then FractionNumber(negative, whole, v).Ok?
            else whole != "" && WholeNumber(negative, whole, v).Ok? && (v == [] || !(IsDigit(v[0]) || v[0] == '.'))
  {
    var n := Run(u, IsDigit);
    RunSplit(u);
    NumberIs(t, negative, u);
    whole, v := u[..n], u[n..];
    point := StartsWith(v, '.');
    if point {
      assert v == "." + v[1..];
      v := v[1..];
    } else {
      SomeDigits(negative, whole, v);
    }
  }

  lemma SignSplit(t: string)
    requires t != []
    ensures t == if t[0] == '-' then "-" + t[1..] else "" + t
  {
  }

  /** What is read as a number is a numeral. */
  lemma {:induction false} NumeralOnly(t: string) returns (negative: bool, whole: string, fraction: Fraction)
    requires t != [] && (t[0] == '-' || IsDigit(t[0])) && ReadNumber(t).Ok?
    ensures NumeralIn(t, negative, whole, fraction, ReadNumber(t).value.0, ReadNumber(t).value.1)
  {
    negative := t[0] == '-';
    SignSplit(t);
    var point, v;
    whole, point, v := NumberParts(t, negative, if negative then t[1..] else t);
    if point {
      fraction := Point(v[..Run(v, IsDigit)]);
      PointParts(t, negative, whole, v);
    } else {
      fraction := NoPoint;
      WholeParts(t, negative, whole, v);
    }
  }

  // ---- values and tables -----------------------------------------------------

  lemma {:induction false} SkipTwice(t: string)
    ensures SkipSpace(SkipSpace(t)) == SkipSpace(t)
    decreases |t|
  {
    if t != "" && IsSpace(t[0]) {
      SkipTwice(t[1..]);
    } else if t != "" && SkipSpace(t) != t {
      SkipTwice(t[2 + Run(t[2..], InComment)..]);
    }
  }

  /** t is the literal l with rest behind it, and denotes v. */
  ghost predicate Spelled(t: string, l: Literal, v: Value, rest: string) {
    LiteralOk(l) && t == LiteralText(l) + rest && Denotes(l) == Ok(v) && Follows(l, rest)
  }

  lemma {:induction false} ShortOnly(t: string) returns (l: Literal)
    requires t != [] && (t[0] == '"' || t[0] == '\'') && ReadShort(t).Ok?
    ensures !l.Long? && Spelled(t, l, Str(ReadShort(t).value.0), ReadShort(t).value.1)
  {
    var bs, s := BytesOnly(t[0], t[1..], "");
    assert "" + s == s;
    l := Short(t[0], bs, s);
    QuotedText(t, bs, ReadShort(t).value.1);
  }

  lemma {:induction false} QuotedText(t: string, bs: seq<Byte>, rest: string)
    requires t != [] && t[1..] == BytesText(bs) + ([t[0]] + rest)
    ensures t == [t[0]] + (BytesText(bs) + [t[0]]) + rest
  {
    assert t == [t[0]] + t[1..];
    Regroup(BytesText(bs), [t[0]], rest);
    Regroup([t[0]], BytesText(bs) + [t[0]], rest);
  }

  lemma {:induction false} NumberOnly(t: string) returns (l: Literal)
    requires t != [] && (t[0] == '-' || IsDigit(t[0])) && ReadNumber(t).Ok?
    ensures !l.Long? && Spelled(t, l, ReadNumber(t).value.0, ReadNumber(t).value.1)
  {
    var negative, whole, fraction := NumeralOnly(t);
    l := Numeral(negative, whole, fraction);
  }

  lemma {:induction false} WordOnly(t: string, b: bool)
    requires t[..Run(t, IsIdentPart)] == if b then "true" else "false"
    ensures Spelled(t, Truth(b), Bool(b), t[Run(t, IsIdentPart)..])
  {
    assert t == t[..Run(t, IsIdentPart)] + t[Run(t, IsIdentPart)..];
  }

  lemma {:induction false} BracketOnly(t: string) returns (l: Literal)
    requires ReadLong(t).Ok? && ReadLong(t).value.Long?
    ensures Spelled(t, l, Str(ReadLong(t).value.content), ReadLong(t).value.rest)
  {
    var k, ps := LongOnly(t);
    l := Literal.Long(k, ps);
  }

  lemma {:induction false} BracesOnly(t: string, gs: seq<Gap>, fields: seq<Field>, rest: string)
    requires t != [] && t[0] == '{' && SpaceOk(gs) && FieldsOk(fields)
    requires t[1..] == SpaceText(gs) + (FieldsText(fields) + ("}" + rest))
    requires EntriesOf(fields, 1).Ok? && Collapse(EntriesOf(fields, 1).value).Ok?
    ensures Spelled(t, Braces(gs, fields), Collapse(EntriesOf(fields, 1).value).value, rest)
  {
    assert t == "{" + t[1..];
    Regroup(FieldsText(fields), "}", rest);
    Regroup(SpaceText(gs), FieldsText(fields) + "}", rest);
    Regroup("{", SpaceText(gs) + (FieldsText(fields) + "}"), rest);
  }

  /** What is read as a value is spelled by a literal. */
  lemma {:induction false} ValueOnly(t: string) returns (l: Literal)
    requires ReadValue(t).Ok?
    ensures Spelled(SkipSpace(t), l, ReadValue(t).value.0, ReadValue(t).value.1)
    ensures l.Long? <==> StartsWith(SkipSpace(t), '[')
    decreases |t|, 0
  {
    var u := SkipSpace(t);
    if u[0] == '{' {
      var gs, fields, es := EntriesOnly(u[1..], [], 1);
      assert [] + es == es;
      BracesOnly(u, gs, fields, ReadValue(t).value.1);
      l := Braces(gs, fields);
    } else if u[0] == '"' || u[0] == '\'' {
      l := ShortOnly(u);
    } else if u[0] == '[' {
      l := BracketOnly(u);
    } else if u[0] == '-' || IsDigit(u[0]) {
      l := NumberOnly(u);
    } else {
      var b := u[..Run(u, IsIdentPart)] == "true";
      WordOnly(u, b);
      l := Truth(b);
    }
  }

  /** What fields are read from. */
  ghost predicate FieldsSpelled(t: string, gs: seq<Gap>, fields: seq<Field>, auto: int, es: seq<Entry>, rest: string) {
    && SpaceOk(gs) && FieldsOk(fields) && t == SpaceText(gs) + (FieldsText(fields) + ("}" + rest))
    && EntriesOf(fields, auto) == Ok(es)
  }

  /** A field up to its value is read from t. */
  ghost predicate HeadSpelled(t: string, key: Key, pad: Space, value: Literal, auto: int, e: Entry,
                              next: int, rest: string) {
    && KeyOk(key) && SpaceOk(pad) && LiteralOk(value) && (key.Slot? ==> !value.Long? && pad == [])
    && KeyDenotes(key, auto) == Ok(e.key) && Denotes(value) == Ok(e.value)
    && next == (if key.Slot? then auto + 1 else auto)
    && t == LuaReading.KeyText(key) + (SpaceText(pad) + (LiteralText(value) + rest))
  }

  /** What stands behind a value is read from t. */
  ghost predicate TailSpelled(t: string, after: Space, sep: string, behind: Space, more: seq<Field>, auto: int,
                              es: seq<Entry>, rest: string)
  {
    && SpaceOk(after) && (sep == "," || sep == ";" || (sep == "" && behind == [] && more == []))
    && SpaceOk(behind) && FieldsOk(more) && EntriesOf(more, auto) == Ok(es)
    && t == SpaceText(after) + (sep + (SpaceText(behind) + (FieldsText(more) + ("}" + rest))))
  }

  lemma {:induction false} FieldJoins(u: string, f: Field, more: seq<Field>, auto: int, e: Entry, next: int, mid: string,
                                      es: seq<Entry>, rest: string)
    requires HeadSpelled(u, f.key, f.pad, f.value, auto, e, next, mid)
    requires TailSpelled(mid, f.after, f.sep, f.behind, more, next, es, rest)
    ensures FieldsOk([f] + more) && EntriesOf([f] + more, auto) == Ok([e] + es)
    ensures u == FieldsText([f] + more) + ("}" + rest)
  {
    var fields := [f] + more;
    assert fields[0] == f && fields[1..] == more && FieldOk(f);
    HeadSplit(f, mid);
    FieldsSplit(fields, "}" + rest);
    Regroup(SpaceText(f.behind), FieldsText(more), "}" + rest);
  }

  lemma {:induction false} FieldsBehind(t: string, gs: seq<Gap>, u: string, fields: seq<Field>, auto: int,
                                        es: seq<Entry>,
                                        rest: string)
    requires SpaceOk(gs) && t == SpaceText(gs) + u && FieldsOk(fields) && EntriesOf(fields, auto) == Ok(es)
    requires u == FieldsText(fields) + ("}" + rest)
    ensures FieldsSpelled(t, gs, fields, auto, es, rest)
  {
  }

  lemma {:induction false} EntriesOnly(t: string, acc: seq<Entry>, auto: int)
    returns (gs: seq<Gap>, fields: seq<Field>, es: seq<Entry>)
    requires ReadEntries(t, acc, auto).Ok?
    ensures
      var r := ReadEntries(t, acc, auto).value;
      FieldsSpelled(t, gs, fields, auto, es, r.1) && r.0 == acc + es
    decreases |t|, 3
  {
    var u := SkipSpace(t);
    gs := SkippedOnly(t);
    if StartsWith(u, '}') {
      fields, es := [], [];
      assert u == "}" + u[1..] && FieldsText([]) + u == u && acc + [] == acc;
    } else {
      SkipTwice(t);
      var e := ReadEntry(u, auto).value;
      var key, pad, value := EntryOnly(u, auto);
      var after, sep, behind, more, es' := AfterOnly(e.2, acc + [e.0], e.1);
      var f := Field(key, pad, value, after, sep, behind);
      var rest := ReadEntries(t, acc, auto).value.1;
      FieldJoins(u, f, more, auto, e.0, e.1, e.2, es', rest);
      fields, es := [f] + more, [e.0] + es';
      FieldsBehind(t, gs, u, fields, auto, es, rest);
      Regroup(acc, [e.0], es');
    }
  }

  lemma {:induction false} AfterOnly(t: string, acc: seq<Entry>, auto: int)
    returns (after: Space, sep: string, behind: Space, more: seq<Field>, es: seq<Entry>)
    requires AfterEntry(t, acc, auto).Ok?
    ensures
      var r := AfterEntry(t, acc, auto).value;
      TailSpelled(t, after, sep, behind, more, auto, es, r.1) && r.0 == acc + es
    decreases |t|, 4
  {
    var u := SkipSpace(t);
    SkipTwice(t);
    after := SkippedOnly(t);
    if StartsWith(u, ',') || StartsWith(u, ';') {
      sep := [u[0]];
      behind, more, es := EntriesOnly(u[1..], acc, auto);
      assert u == sep + u[1..];
    } else {
      sep, behind, more, es := "", [], [], [];
      assert u == "}" + u[1..] && acc + [] == acc;
      assert sep + (SpaceText(behind) + (FieldsText(more) + u)) == u;
    }
  }

  lemma {:induction false} NameOnly(t: string)
    requires t != [] && IsIdentStart(t[0])
    ensures var n := Run(t, IsIdentPart); NameOk(t[..n]) && t == t[..n] + t[n..]
  {
    var n := Run(t, IsIdentPart);
    assert IsIdentPart(t[0]) && n > 0;
    forall i | 0 <= i < n ensures NameChar(t[..n][i]) {
      assert IsIdentPart(t[i]);
    }
  }

  lemma {:induction false} BlanksOnly(t: string)
    ensures var n := Run(t, IsSpace); All(t[..n], BlankChar) && t == t[..n] + t[n..]
  {
    var n := Run(t, IsSpace);
    forall i | 0 <= i < n ensures BlankChar(t[..n][i]) {
      assert IsSpace(t[i]);
    }
  }

  /** "=", space and a value. */
  lemma {:induction false} AssignedOnly(t: string) returns (before: Space, pad: Space, l: Literal)
    requires ReadAssigned(t).Ok?
    ensures SpaceOk(before) && SpaceOk(pad) && LiteralOk(l) && Denotes(l) == Ok(ReadAssigned(t).value.0)
    ensures Follows(l, ReadAssigned(t).value.1)
    ensures SkipSpace(t) == "=" + (SpaceText(pad) + (LiteralText(l) + ReadAssigned(t).value.1))
    ensures t == SpaceText(before) + SkipSpace(t)
    decreases |t|, 1
  {
    var u := SkipSpace(t);
    before := SkippedOnly(t);
    SkipTwice(u[1..]);
    l := ValueOnly(SkipSpace(u[1..]));
    pad := SkippedOnly(u[1..]);
    assert u == "=" + u[1..];
  }

  lemma {:induction false} EntryOnly(t: string, auto: int) returns (key: Key, pad: Space, value: Literal)
    requires ReadEntry(t, auto).Ok? && SkipSpace(t) == t
    ensures var r := ReadEntry(t, auto).value; HeadSpelled(t, key, pad, value, auto, r.0, r.1, r.2)
    decreases |t|, 2
  {
    if StartsWith(t, '[') {
      key, pad, value := BracketEntry(t, auto);
    } else if t != [] && IsIdentStart(t[0]) && KeyAhead(t) {
      key, pad, value := NameEntry(t, auto);
    } else {
      value := ValueOnly(t);
      key, pad := Slot, [];
      assert "" + ("" + t) == t;
    }
  }

  lemma {:induction false} NameEntry(t: string, auto: int) returns (key: Key, pad: Space, value: Literal)
    requires ReadEntry(t, auto).Ok? && t != [] && t[0] != '[' && IsIdentStart(t[0]) && KeyAhead(t)
    ensures var r := ReadEntry(t, auto).value; HeadSpelled(t, key, pad, value, auto, r.0, r.1, r.2)
    decreases |t|, 1
  {
    var n := Run(t, IsIdentPart);
    var behind := t[n..];
    var before;
    NameOnly(t);
    BlanksOnly(behind);
    before, pad, value := AssignedOnly(behind);
    var blanks := behind[..Run(behind, IsSpace)];
    key := Name(t[..n], blanks);
    BlanksRun(blanks, behind[Run(behind, IsSpace)..]);
    var equals := behind[Run(behind, IsSpace)..];
    assert SkipSpace(equals) == equals;
    assert equals == SkipSpace(behind);
    var rest := SpaceText(pad) + (LiteralText(value) + ReadEntry(t, auto).value.2);
    Regroup(t[..n], blanks + "=", rest);
    Regroup(blanks, "=", rest);
  }

  lemma {:induction false} BracketEntry(t: string, auto: int) returns (key: Key, pad: Space, value: Literal)
    requires ReadEntry(t, auto).Ok? && StartsWith(t, '[')
    ensures var r := ReadEntry(t, auto).value; HeadSpelled(t, key, pad, value, auto, r.0, r.1, r.2)
    decreases |t|, 1
  {
    var u := t[1..];
    var k := ReadValue(SkipSpace(u)).value;
    var w := SkipSpace(k.1);
    SkipTwice(u);
    var inner := ValueOnly(SkipSpace(u));
    var before := SkippedOnly(u);
    var after := SkippedOnly(k.1);
    var behind;
    behind, pad, value := AssignedOnly(w[1..]);
    key := Bracket(before, inner, after, behind);
    BracketJoins(t, before, inner, after, behind, k.1, w, SpaceText(pad) + (LiteralText(value) + ReadEntry(t, auto).value.2));
  }

  lemma {:induction false} BracketJoins(t: string, before: Space, inner: Literal, after: Space, behind: Space,
                                        krest: string, w: string, rest: string)
    requires t != [] && t[0] == '[' && t[1..] == SpaceText(before) + (LiteralText(inner) + krest)
    requires krest == SpaceText(after) + w && w != [] && w[0] == ']' && w[1..] == SpaceText(behind) + ("=" + rest)
    ensures t == LuaReading.KeyText(Bracket(before, inner, after, behind)) + rest
  {
    BracketSplit(Bracket(before, inner, after, behind), rest);
    assert t == "[" + t[1..] && w == "]" + w[1..];
  }

  // ---- files -----------------------------------------------------------------

  /** t is what the statements spell, up to the ending. */
  ghost predicate StatementsSpelled(t: string, ss: seq<Statement>, e: Ending, out: map<string, Value>, v: Value) {
    && EndingOk(e) && StatementsOk(ss, EndingText(e)) && t == StatementsText(ss, EndingText(e))
    && Assigned(ss, EndingText(e), out) == Ok(v)
  }

  lemma {:induction false} StatementOnly(t: string, out: map<string, Value>)
    returns (name: string, before: Space, pad: Space, l: Literal, v: Value, rest: string)
    requires t != "" && ReadFile(t, out).Ok?
    ensures NameOk(name) && SpaceOk(before) && SpaceOk(pad) && LiteralOk(l) && Denotes(l) == Ok(v) && Follows(l, rest)
    ensures t == name + (SpaceText(before) + ("=" + (SpaceText(pad) + (LiteralText(l) + rest)))) && |rest| < |t|
    ensures ReadFile(t, out) == ReadFile(SkipSpace(rest), out[name := v])
  {
    var n := Run(t, IsIdentPart);
    NameOnly(t);
    name := t[..n];
    before, pad, l := AssignedOnly(t[n..]);
    v, rest := ReadAssigned(t[n..]).value.0, ReadAssigned(t[n..]).value.1;
  }

  lemma {:induction false} StatementJoins(t: string, s: Statement, ss: seq<Statement>, e: Ending,
                                          out: map<string, Value>,
                                          v: Value, all: Value, rest: string)
    requires NameOk(s.name) && SpaceOk(s.before) && SpaceOk(s.pad) && LiteralOk(s.value) && Denotes(s.value) == Ok(v)
    requires SpaceOk(s.after) && Follows(s.value, rest) && rest == SpaceText(s.after) + StatementsText(ss, EndingText(e))
    requires t == s.name + (SpaceText(s.before) + ("=" + (SpaceText(s.pad) + (LiteralText(s.value) + rest))))
    requires StatementsSpelled(StatementsText(ss, EndingText(e)), ss, e, out[s.name := v], all)
    ensures StatementsSpelled(t, [s] + ss, e, out, all)
  {
    assert ([s] + ss)[0] == s && ([s] + ss)[1..] == ss;
  }

  lemma {:induction false} StatementsOnly(t: string, out: map<string, Value>) returns (ss: seq<Statement>, e: Ending)
    requires t != "" && ReadFile(t, out).Ok?
    ensures StatementsSpelled(t, ss, e, out, ReadFile(t, out).value)
    decreases |t|
  {
    var name, before, pad, l, v, rest := StatementOnly(t, out);
    var after, more;
    if SkipSpace(rest) == "" {
      after, e := SkippedAll(rest);
      more := [];
    } else {
      after := SkippedOnly(rest);
      more, e := StatementsOnly(SkipSpace(rest), out[name := v]);
    }
    var s := Statement(name, before, pad, l, after);
    StatementJoins(t, s, more, e, out, v, ReadFile(t, out).value, rest);
    ss := [s] + more;
  }

  /** The text is that of a file which assigns v. */
  ghost predicate SpelledBy(t: string, space: Space, ss: seq<Statement>, e: Ending, v: Value) {
    && SpaceOk(space) && EndingOk(e) && StatementsOk(ss, EndingText(e))
    && t == SpaceText(space) + StatementsText(ss, EndingText(e)) && Assigned(ss, EndingText(e), map[]) == Ok(v)
  }

  ghost predicate InFormat(t: string, v: Value) {
    exists space, ss, e :: SpelledBy(t, space, ss, e, v)
  }

  lemma {:induction false} ReadOnly(t: string)
    requires Read(t).Ok?
    ensures InFormat(t, Read(t).value)
  {
    if SkipSpace(t) == "" {
      var space, e := SkippedAll(t);
      assert SpelledBy(t, space, [], e, Read(t).value);
    } else {
      var space := SkippedOnly(t);
      var ss, e := StatementsOnly(SkipSpace(t), map[]);
      assert SpelledBy(t, space, ss, e, Read(t).value);
    }
  }

  /** Parse accepts exactly the texts that a syntax tree spells, each as what the tree
      denotes. */
  lemma {:induction false} ReadsExactly(t: string, v: Value)
    ensures Read(t) == Ok(v) <==> InFormat(t, v)
  {
    if Read(t).Ok? { ReadOnly(t); }
    if InFormat(t, v) {
      var space, ss, e :| SpelledBy(t, space, ss, e, v);
      FileReads(space, ss, e);
    }
  }
}
