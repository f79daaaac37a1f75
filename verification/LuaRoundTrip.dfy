/** Reading what was written. */
module LuaRoundTrip {
  import opened Text
  import opened LuaValue
  import opened LuaText
  import opened LuaGrammar
  import SortedKeys

  // ---- what a written tree reads back as ----------------------------------

  /** A written string after reading: long brackets lose their carriage returns. */
  function StrBack(s: string): string {
    if !HasNewline(s) then s
    else FoldNewlines(if s[0] == '\r' then s[1..] else s)
  }

  /** A written decimal after reading: whole ones have become integers. */
  function DecBack(u: decimal): Value {
    if u % UNIT == 0 then Int(u / UNIT) else Dec(u)
  }

  /** Array slots that the reader takes for a bracketed key. */
  predicate MistakenForKey(v: Value) {
    v.Str? && HasNewline(v.s)
  }

  /** Exactly the trees whose text parses. */
  ghost predicate Readable(v: Value)
    decreases v
  {
    match v
    case Nil => false
    case Bool(_) => true
    case Int(n) => InInt64(n)
    case Dec(_) => true
    case Str(_) => true
    case Table(num, rec) =>
      && (forall k :: k in num ==> Readable(num[k]) && !MistakenForKey(num[k]))
      && (forall k :: k in rec ==> Readable(rec[k]))
  }

  /** All integers are in the int64 range. */
  ghost predicate Fits(v: Value)
    decreases v
  {
    match v
    case Int(n) => InInt64(n)
    case Table(num, rec) => (forall k :: k in num ==> Fits(num[k])) && (forall k :: k in rec ==> Fits(rec[k]))
    case _ => true
  }

  /** What the text of v can fail with: a parse error, or a literal for
      strconv.ParseFloat when some integer is beyond int64. */
  ghost predicate Blames(v: Value, e: Error) {
    e == Malformed || (e == FloatLiteral && !Fits(v))
  }

  ghost predicate BlamesAny(es: seq<Entry>, e: Error) {
    e == Malformed || (e == FloatLiteral && exists x :: x in es && !Fits(x.value))
  }

  ghost predicate EntryReadable(e: Entry) {
    Readable(e.value) && (e.key.Int? ==> !MistakenForKey(e.value))
  }

  /** The tree the reader builds from the text of v: array slots renumbered from 1,
      string keys and values without carriage returns, later keys winning. */
  ghost function ReadBack(v: Value): Value
    decreases v, 1, 0
  {
    if v.Str? then Str(StrBack(v.s))
    else if v.Dec? then DecBack(v.u)
    else if v.Table? then
      var es := EntriesBack(v, Entries(v), 1);
      Table(NumPart(es), StrPart(es))
    else v
  }

  ghost function EntriesBack(v: Value, es: seq<Entry>, auto: int): (r: seq<Entry>)
    requires forall e :: e in es ==> e.value < v && (e.key.Int? || e.key.Str?)
    ensures |r| == |es|
    decreases v, 0, |es|
  {
    if es == [] then [] else
      assert es[0] in es;
      var key := if es[0].key.Int? then Int(auto) else Str(StrBack(es[0].key.s));
      [Entry(key, ReadBack(es[0].value))]
      + EntriesBack(v, es[1..], if es[0].key.Int? then auto + 1 else auto)
  }

  // ---- white space ---------------------------------------------------------

  lemma {:induction false} SkipBlanks(ws: string, t: string)
    requires All(ws, IsSpace)
    ensures SkipSpace(ws + t) == SkipSpace(t)
  {
    if ws == [] {
      assert ws + t == t;
    } else {
      assert (ws + t)[1..] == ws[1..] + t;
      SkipBlanks(ws[1..], t);
    }
  }

  lemma {:induction false} IndentIsBlank(level: nat)
    ensures All(Indent(level), IsSpace)
  {
  }

  // ---- short strings -------------------------------------------------------

  lemma DecimalDigits(n: nat)
    requires n < 1000
    ensures |Decimal(n)| == if n < 10 then 1 else if n < 100 then 2 else 3
  {
  }

  lemma {:induction false} ThreeDigitsValue(n: nat)
    requires n < 1000
    ensures All(ThreeDigits(n), IsDigit) && DecimalValue(ThreeDigits(n)) == n
  {
    var a, b, c := Digit(n / 100), Digit(n / 10 % 10), Digit(n % 10);
    assert [a, b, c][..2] == [a, b] && [a, b][..1] == [a] && [a][..0] == [];
    assert DecimalValue([a]) == n / 100;
    assert DecimalValue([a, b]) == n / 10;
  }

  /** A decimal escape of three digits, or of fewer with no digit behind it. */
  lemma {:induction false} DigitsEscape(digits: string, n: nat, t: string)
    requires 1 <= |digits| <= 3 && All(digits, IsDigit) && DecimalValue(digits) == n <= 255
    requires |digits| == 3 || t == [] || !IsDigit(t[0])
    ensures ReadEscape(digits + t) == Ok((n as char, t))
  {
    var u := digits + t;
    assert forall i :: 0 <= i < |digits| ==> u[i] == digits[i];
    assert |u| > |digits| ==> u[|digits|] == t[0];
    assert EscapeDigits(u) == |digits|;
    assert u[..|digits|] == digits && u[|digits|..] == t;
  }

  /** What stands behind the backslash of a control character. */
  function EscapeText(c: char, nextIsDigit: bool): string
    requires IsControl(c)
  {
    if nextIsDigit then ThreeDigits(c as int) else Decimal(c as int)
  }

  /** A decimal escape is read as the byte it was written for, whatever follows. */
  lemma {:induction false} ControlEscape(c: char, nextIsDigit: bool, t: string)
    requires IsControl(c)
    requires !nextIsDigit ==> t != [] && !IsDigit(t[0])
    ensures ReadEscape(EscapeText(c, nextIsDigit) + t) == Ok((c, t))
  {
    var n := c as int;
    DecimalRoundTrip(n);
    ThreeDigitsValue(n);
    DecimalDigits(n);
    DigitsEscape(EscapeText(c, nextIsDigit), n, t);
  }

  /** The rest t of a quoted string, after acc, completes to s and leaves rest. */
  predicate ShortReads(t: string, acc: string, s: string, rest: string) {
    ReadShortBody('"', t, acc) == Ok((s, rest))
  }

  lemma {:induction false} EscapeReads(body: string, c: char, t: string, acc: string, s: string, rest: string)
    requires ReadEscape(body + t) == Ok((c, t)) && ShortReads(t, acc + [c], s, rest)
    ensures ShortReads(['\\'] + body + t, acc, s, rest)
  {
    assert (['\\'] + body + t)[1..] == body + t;
  }

  lemma {:induction false} PlainReads(c: char, t: string, acc: string, s: string, rest: string)
    requires c != '"' && c != '\\' && c != '\n' && ShortReads(t, acc + [c], s, rest)
    ensures ShortReads([c] + t, acc, s, rest)
  {
    assert ([c] + t)[1..] == t;
  }

  lemma {:induction false} SimpleEscape(c: char, t: string)
    requires c == '"' || c == '\\' || c == '\n'
    ensures ReadEscape([c] + t) == Ok((c, t))
  {
    assert ([c] + t)[1..] == t;
  }

  /** Reading one quoted character appends that character. */
  lemma {:induction false} QuotedCharBack(c: char, nextIsDigit: bool, t: string, acc: string,
                                          s: string, rest: string)
    requires !nextIsDigit ==> t != [] && !IsDigit(t[0])
    requires ShortReads(t, acc + [c], s, rest)
    ensures ShortReads(QuotedChar(c, nextIsDigit) + t, acc, s, rest)
  {
    if c == '"' || c == '\\' || c == '\n' {
      SimpleEscape(c, t);
      EscapeReads([c], c, t, acc, s, rest);
      assert QuotedChar(c, nextIsDigit) == ['\\'] + [c];
    } else if IsControl(c) {
      ControlEscape(c, nextIsDigit, t);
      EscapeReads(EscapeText(c, nextIsDigit), c, t, acc, s, rest);
    } else {
      PlainReads(c, t, acc, s, rest);
    }
  }

  lemma {:induction false} QuotedBodySplit(s: string, tail: string)
    requires s != []
    ensures QuotedBody(s) + tail
         == QuotedChar(s[0], |s| > 1 && IsDigit(s[1])) + (QuotedBody(s[1..]) + tail)
  {
  }

  /** What comes next never starts with a digit unless the next character is one. */
  lemma {:induction false} QuotedBodyStart(s: string, tail: string)
    requires s == [] || !IsDigit(s[0])
    requires tail != [] && tail[0] == '"'
    ensures var t := QuotedBody(s) + tail; t != [] && !IsDigit(t[0])
  {
  }

  lemma {:induction false} QuotedBodyBack(s: string, acc: string, tail: string)
    requires tail != [] && tail[0] == '"'
    ensures ShortReads(QuotedBody(s) + tail, acc, acc + s, tail[1..])
  {
    if s == [] {
      assert QuotedBody(s) + tail == tail;
      assert acc + s == acc;
    } else {
      var nextIsDigit := |s| > 1 && IsDigit(s[1]);
      var t := QuotedBody(s[1..]) + tail;
      if !nextIsDigit { QuotedBodyStart(s[1..], tail); }
      QuotedBodyBack(s[1..], acc + [s[0]], tail);
      assert acc + [s[0]] + s[1..] == acc + s;
      QuotedCharBack(s[0], nextIsDigit, t, acc, acc + s, tail[1..]);
      QuotedBodySplit(s, tail);
    }
  }

  /** parseShortString undoes luaQ on every string, in front of any text. */
  lemma {:induction false} QuotedBack(s: string, rest: string)
    ensures ReadShort(Quoted(s) + rest) == Ok((s, rest))
  {
    assert (Quoted(s) + rest)[1..] == QuotedBody(s) + ("\"" + rest);
    QuotedBodyBack(s, "", "\"" + rest);
    assert "" + s == s;
  }

  // ---- long strings --------------------------------------------------------

  /** In s + close + rest the first closing bracket is the written one. */
  lemma {:induction false} FirstClose(s: string, k: nat, rest: string)
    requires Usable(s, k)
    ensures Index(s + CloseBracket(k) + rest, CloseBracket(k)) == |s|
  {
    var close := CloseBracket(k);
    var t := s + close + rest;
    assert t[|s|..|s| + |close|] == close;
    assert HasAt(t, close, |s|);
    assert t[|s|] == ']' && forall i :: 1 <= i <= k ==> close[i] == '=';
    forall p: nat | p < |s| ensures !HasAt(t, close, p) {
      if HasAt(t, close, p) {
        assert forall i :: 0 <= i < |close| ==> t[p..p + |close|][i] == t[p + i] == close[i];
        assert p + k + 1 <= |s|;
        assert (s + "]")[p..p + |close|] == t[p..p + |close|];
        assert HasAt(s + "]", close, p);
      }
    }
  }

  lemma {:induction false} HasAtLater(u: string, t: string, p: string, i: nat)
    requires u != [] && u[1..] == t && i <= |t| && HasAt(t, p, i)
    ensures HasAt(u, p, i + 1)
  {
    assert u[i + 1..i + 1 + |p|] == u[1..][i..i + |p|];
  }

  lemma {:induction false} UsableSuffix(s: string, k: nat)
    requires s != [] && Usable(s, k)
    ensures Usable(s[1..], k)
  {
    var close := CloseBracket(k);
    if Contains(s[1..] + "]", close) {
      var t := s[1..] + "]";
      var i: nat :| i <= |t| && HasAt(t, close, i);
      assert (s + "]")[1..] == t;
      HasAtLater(s + "]", t, close, i);
    }
  }

  lemma {:induction false} DropOne(s: string, rest: string)
    requires rest != [] && rest[0] == ']'
    ensures DropNewline("\n" + (s + rest)) == (if s != [] && s[0] == '\r' then s[1..] else s) + rest
  {
    var t := "\n" + (s + rest);
    if s != [] && s[0] == '\r' {
      assert t[2..] == s[1..] + rest;
    } else {
      assert t[1..] == s + rest;
    }
  }

  /** The opening bracket is recognised with its level. */
  lemma {:induction false} OpenBack(k: nat, t: string)
    ensures var u := OpenBracket(k) + t;
      && StartsWith(u, '[') && Run(u[1..], IsEquals) == k
      && k + 1 < |u| && u[k + 1] == '[' && u[k + 2..] == t
  {
    var eqs := Repeat('=', k);
    assert (OpenBracket(k) + t)[1..] == eqs + ("[" + t);
    RunAppend(eqs, "[" + t, IsEquals);
  }

  lemma {:induction false} ReadLongStep(k: nat, t: string, content: string, rest: string)
    requires DropNewline(t) == content + CloseBracket(k) + rest
    requires Index(DropNewline(t), CloseBracket(k)) == |content|
    ensures ReadLong(OpenBracket(k) + t) == Ok(Long(FoldNewlines(content), rest))
  {
    OpenBack(k, t);
    var u := DropNewline(t);
    assert u[..|content|] == content && u[|content| + k + 2..] == rest;
  }

  lemma {:induction false} LongTextSplit(s: string, k: nat, rest: string)
    ensures LongText(s, k) + rest == OpenBracket(k) + ("\n" + (s + (CloseBracket(k) + rest)))
  {
  }

  /** The parser's first match of the closing bracket is the writer's. */
  lemma {:induction false} LongBack(s: string, k: nat, rest: string)
    requires Usable(s, k)
    ensures ReadLong(LongText(s, k) + rest)
         == Ok(Long(FoldNewlines(if s != [] && s[0] == '\r' then s[1..] else s), rest))
  {
    var s' := if s != [] && s[0] == '\r' then s[1..] else s;
    var tail := CloseBracket(k) + rest;
    if s' != s { UsableSuffix(s, k); }
    DropOne(s, tail);
    FirstClose(s', k, rest);
    assert s' + CloseBracket(k) + rest == s' + tail;
    ReadLongStep(k, "\n" + (s + tail), s', rest);
    LongTextSplit(s, k, rest);
  }

  /** A written string is read back in front of any text. */
  lemma {:induction false} StrTextBack(s: string, rest: string)
    ensures StrText(s) != [] && StrText(s)[0] in {'"', '['}
    ensures ReadValue(StrText(s) + rest) == Ok((Str(StrBack(s)), rest))
  {
    var t := StrText(s) + rest;
    assert SkipSpace(t) == t;
    if HasNewline(s) {
      LongBack(s, LevelFrom(s, 0), rest);
    } else {
      QuotedBack(s, rest);
    }
  }

  // ---- numbers -------------------------------------------------------------

  /** The characters a written value can be followed by. */
  predicate Delimited(t: string) {
    t != [] && (t[0] == ',' || t[0] == '\n' || t[0] == ']')
  }

  lemma {:induction false} WholeBack(negative: bool, digits: string, rest: string)
    requires digits != [] && All(digits, IsDigit) && Delimited(rest)
    ensures
      var t := if negative then "-" + (digits + rest) else digits + rest;
      && t != [] && (t[0] == '-' || IsDigit(t[0]))
      && ReadNumber(t) == WholeNumber(negative, digits, rest)
  {
    var u := digits + rest;
    RunAppend(digits, rest, IsDigit);
    assert IsDigit(u[0]);
    if negative {
      assert ("-" + u)[1..] == u;
    }
  }

  lemma {:induction false} IntTextSplit(n: int, rest: string)
    ensures IntText(n) + rest
         == if n < 0 then "-" + (Decimal(-n) + rest) else Decimal(n) + rest
  {
    if n < 0 { Regroup("-", Decimal(-n), rest); }
  }

  lemma {:induction false} IntTextBack(n: int, rest: string)
    requires Delimited(rest)
    ensures var t := IntText(n) + rest;
      && t != [] && SkipSpace(t) == t && (t[0] == '-' || IsDigit(t[0]))
      && ReadNumber(t) == if InInt64(n) then Ok((Int(n), rest)) else Err(FloatLiteral)
  {
    var m := if n < 0 then 0 - n else n;
    DecimalRoundTrip(m);
    WholeBack(n < 0, Decimal(m), rest);
    IntTextSplit(n, rest);
    assert WholeValue(n < 0, Decimal(m)) == if InInt64(n) then Ok(Int(n)) else Err(FloatLiteral);
    NoComment(n < 0, Decimal(m), rest);
  }

  /** A numeral does not start white space or a comment. */
  lemma {:induction false} NoComment(negative: bool, digits: string, rest: string)
    requires digits != [] && All(digits, IsDigit)
    ensures var t := if negative then "-" + (digits + rest) else digits + rest; SkipSpace(t) == t
  {
    var u := digits + rest;
    assert IsDigit(u[0]);
    assert negative ==> ("-" + u)[1] == u[0];
  }

  lemma {:induction false} FractionBack(negative: bool, digits: string, fraction: string, rest: string)
    requires digits != [] && All(digits, IsDigit) && All(fraction, IsDigit) && Delimited(rest)
    ensures
      var u := digits + ("." + (fraction + rest));
      var t := if negative then "-" + u else u;
      && t != [] && (t[0] == '-' || IsDigit(t[0]))
      && ReadNumber(t) == FractionNumber(negative, digits, fraction + rest)
  {
    var behind := "." + (fraction + rest);
    var u := digits + behind;
    RunAppend(digits, behind, IsDigit);
    assert IsDigit(u[0]) && behind[1..] == fraction + rest;
    if negative {
      assert ("-" + u)[1..] == u;
    }
  }

  /** The size of a decimal, and what its range says of the whole part. */
  function Magnitude(u: int): (m: nat)
    ensures u == if u < 0 then 0 - m else m
    ensures InDecimals(u) ==> InInt64(m / UNIT) && InInt64(0 - m / UNIT)
  {
    if u < 0 then 0 - u else u
  }

  lemma MagnitudeParts(u: int)
    ensures var m := Magnitude(u);
      m == m / UNIT * UNIT + m % UNIT && (m % UNIT == 0 <==> u % UNIT == 0)
  {
  }

  predicate NumberReads(t: string, v: Value, rest: string) {
    t != [] && (t[0] == '-' || IsDigit(t[0])) && ReadNumber(t) == Ok((v, rest))
  }

  lemma {:induction false} WholeReads(negative: bool, digits: string, v: Value, rest: string)
    requires digits != [] && All(digits, IsDigit) && Delimited(rest)
    requires WholeValue(negative, digits) == Ok(v)
    ensures NumberReads(if negative then "-" + (digits + rest) else digits + rest, v, rest)
  {
    WholeBack(negative, digits, rest);
  }

  lemma {:induction false} FractionReads(negative: bool, digits: string, fraction: string, v: Value, rest: string)
    requires digits != [] && All(digits, IsDigit) && All(fraction, IsDigit) && Delimited(rest)
    requires FractionalValue(negative, digits, fraction) == Ok(v)
    ensures
      var u := digits + ("." + (fraction + rest));
      NumberReads(if negative then "-" + u else u, v, rest)
  {
    FractionBack(negative, digits, fraction, rest);
    RunAppend(fraction, rest, IsDigit);
  }

  lemma {:induction false} WholeDecimalBack(u: decimal)
    requires Magnitude(u) % UNIT == 0
    ensures WholeValue(u < 0, Decimal(Magnitude(u) / UNIT)) == Ok(DecBack(u))
  {
    DecimalRoundTrip(Magnitude(u) / UNIT);
  }

  lemma {:induction false} FractionalPartsBack(negative: bool, whole: nat, part: nat, m: int)
    requires 0 < part < UNIT && m == whole * UNIT + part && InDecimals(if negative then 0 - m else m)
    ensures FractionalValue(negative, Decimal(whole), UnitFraction(part))
         == Ok(Dec(if negative then 0 - m else m))
  {
    DecimalRoundTrip(whole);
    assert Pow10(5) == UNIT;
    FractionRoundTrip(part, 5);
  }

  lemma {:induction false} FractionalDecimalBack(u: decimal)
    requires Magnitude(u) % UNIT != 0
    ensures
      var m := Magnitude(u);
      FractionalValue(u < 0, Decimal(m / UNIT), UnitFraction(m % UNIT)) == Ok(DecBack(u))
  {
    var m := Magnitude(u);
    MagnitudeParts(u);
    FractionalPartsBack(u < 0, m / UNIT, m % UNIT, m);
  }

  lemma {:induction false} PositiveTextSplit(m: nat, rest: string)
    ensures PositiveText(m) + rest
         == if m % UNIT == 0 then Decimal(m / UNIT) + rest
            else Decimal(m / UNIT) + ("." + (UnitFraction(m % UNIT) + rest))
  {
    if m % UNIT != 0 {
      Regroup(Decimal(m / UNIT), "." + UnitFraction(m % UNIT), rest);
      Regroup(".", UnitFraction(m % UNIT), rest);
    }
  }

  lemma {:induction false} DecTextSplit(u: int, rest: string)
    ensures
      var t := PositiveText(Magnitude(u)) + rest;
      DecText(u) + rest == if u < 0 then "-" + t else t
  {
    if u < 0 { Regroup("-", PositiveText(Magnitude(u)), rest); }
  }

  lemma {:induction false} PositiveTextBack(u: decimal, rest: string)
    requires Delimited(rest)
    ensures var t := PositiveText(Magnitude(u)) + rest;
      NumberReads(if u < 0 then "-" + t else t, DecBack(u), rest)
  {
    var m := Magnitude(u);
    PositiveTextSplit(m, rest);
    if m % UNIT == 0 {
      WholeDecimalBack(u);
      WholeReads(u < 0, Decimal(m / UNIT), DecBack(u), rest);
    } else {
      FractionalDecimalBack(u);
      FractionReads(u < 0, Decimal(m / UNIT), UnitFraction(m % UNIT), DecBack(u), rest);
    }
  }

  lemma {:induction false} DecTextBack(u: decimal, rest: string)
    requires Delimited(rest)
    ensures NumberReads(DecText(u) + rest, DecBack(u), rest)
  {
    DecTextSplit(u, rest);
    PositiveTextBack(u, rest);
  }

  // ---- values --------------------------------------------------------------

  /** Text that cannot turn the identifier before it into a key. */
  predicate NotAssignment(t: string) {
    !StartsWith(t[Run(t, IsSpace)..], '=')
  }

  lemma {:induction false} CloseFollows(sep: Sep, level: nat, rest: string)
    requires level > 0 && sep != First
    ensures var t := CloseText(sep, level) + rest;
      Delimited(t) && NotAssignment(t) && SkipSpace(t) == "}" + rest
  {
    var blanks := "\n" + Indent(level - 1);
    IndentIsBlank(level - 1);
    assert CloseText(sep, level) + rest == blanks + ("}" + rest);
    RunAppend(blanks, "}" + rest, IsSpace);
    SkipBlanks(blanks, "}" + rest);
  }

  lemma {:induction false} BodyFollows(v: Value, es: seq<Entry>, sep: Sep, level: nat, rest: string)
    requires forall e :: e in es ==> e.value < v
    requires level > 0 && sep != First
    ensures var t := BodyText(v, es, sep, level) + rest; Delimited(t) && NotAssignment(t)
  {
    if es == [] {
      CloseFollows(sep, level, rest);
    } else {
      var t := BodyText(v, es, sep, level) + rest;
      assert t[0] == ',';
    }
  }

  lemma {:induction false} ReadTable(t: string)
    ensures
      var r, es := ReadValue("{" + t), ReadEntries(t, [], 1);
      && (es.Err? ==> r == Err(es.error))
      && (es.Ok? && Collapse(es.value.0).Ok? ==> r == Ok((Collapse(es.value.0).value, es.value.1)))
  {
    var u := "{" + t;
    assert SkipSpace(u) == u && u[1..] == t;
  }

  lemma {:induction false} ReadDigits(t: string)
    requires t != [] && SkipSpace(t) == t && (t[0] == '-' || IsDigit(t[0]))
    ensures ReadValue(t) == ReadNumber(t)
  {
    assert t[0] != '{' && t[0] != '"' && t[0] != '\'' && t[0] != '[';
  }

  lemma {:induction false} ReadWord(w: string, rest: string)
    requires w in {"nil", "true", "false"} && Delimited(rest)
    ensures ReadValue(w + rest) == if w == "nil" then Err(Malformed) else Ok((Bool(w == "true"), rest))
  {
    WordBack(w, rest);
  }

  /** Whether the text of v, with rest behind it, reads as Readable says. */
  ghost predicate ReadsBack(v: Value, level: nat, rest: string) {
    var r := ReadValue(ValueText(v, level) + rest);
    if Readable(v) then r == Ok((ReadBack(v), rest)) else r.Err? && Blames(v, r.error)
  }

  /** Every written value reads back, or fails to parse, as Readable says. */
  lemma {:induction false} ValueBack(v: Value, level: nat, rest: string)
    requires Delimited(rest)
    ensures ReadsBack(v, level, rest)
    decreases v, 2, 0
  {
    match v
    case Nil =>
      ReadWord("nil", rest);
    case Bool(b) =>
      ReadWord(if b then "true" else "false", rest);
    case Int(n) =>
      IntTextBack(n, rest);
      ReadDigits(IntText(n) + rest);
    case Dec(u) =>
      DecTextBack(u, rest);
      DecStart(u);
      NothingToSkip(DecText(u) + rest);
      ReadDigits(DecText(u) + rest);
    case Str(s) =>
      StrTextBack(s, rest);
    case Table(_, _) =>
      TableBack(v, level, rest);
  }

  lemma {:induction false} TableTextSplit(v: Value, level: nat, rest: string)
    requires v.Table?
    ensures ValueText(v, level) + rest == "{" + (BodyText(v, Entries(v), First, level + 1) + rest)
  {
    Regroup("{", BodyText(v, Entries(v), First, level + 1), rest);
  }

  lemma {:induction false} TableBack(v: Value, level: nat, rest: string)
    requires v.Table?
    ensures ReadsBack(v, level, rest)
    decreases v, 1, |Entries(v)| + 1
  {
    var es := Entries(v);
    TableTextSplit(v, level, rest);
    ReadTable(BodyText(v, es, First, level + 1) + rest);
    BodyBack(v, es, First, level + 1, [], 1, rest);
    ReadableEntries(v);
    CollapseBack(v);
    FittingEntries(v);
    assert [] + EntriesBack(v, es, 1) == EntriesBack(v, es, 1);
  }

  lemma {:induction false} FittingEntries(v: Value)
    requires v.Table?
    ensures (exists x :: x in Entries(v) && !Fits(x.value)) ==> !Fits(v)
  {
    if exists x :: x in Entries(v) && !Fits(x.value) {
      var x :| x in Entries(v) && !Fits(x.value);
      EntryFrom(v, x);
    }
  }

  lemma {:induction false} WordBack(w: string, rest: string)
    requires w in {"nil", "true", "false"} && Delimited(rest)
    ensures var t := w + rest;
      && SkipSpace(t) == t && Run(t, IsIdentPart) == |w| && t[..|w|] == w && t[|w|..] == rest
  {
    RunAppend(w, rest, IsIdentPart);
  }

  lemma {:induction false} EntryOf(v: Value)
    requires v.Table?
    ensures forall k :: k in v.num ==> Entry(Int(k), v.num[k]) in Entries(v)
    ensures forall k :: k in v.rec ==> Entry(Str(k), v.rec[k]) in Entries(v)
  {
    var ns, rs := SortedKeys.Ints(v.num.Keys), SortedKeys.Strings(v.rec.Keys);
    var nums, recs := NumEntries(v.num), RecEntries(v.rec);
    forall k | k in v.num ensures Entry(Int(k), v.num[k]) in Entries(v) {
      assert k in ns;
      var i :| 0 <= i < |ns| && ns[i] == k;
      assert nums[i] == Entry(Int(k), v.num[k]);
      assert nums[i] in nums;
    }
    forall k | k in v.rec ensures Entry(Str(k), v.rec[k]) in Entries(v) {
      assert k in rs;
      var i :| 0 <= i < |rs| && rs[i] == k;
      assert recs[i] == Entry(Str(k), v.rec[k]);
      assert recs[i] in recs;
    }
  }

  lemma {:induction false} EntryFrom(v: Value, e: Entry)
    requires v.Table? && e in Entries(v)
    ensures if e.key.Int? then e.key.n in v.num && e.value == v.num[e.key.n]
            else e.key.Str? && e.key.s in v.rec && e.value == v.rec[e.key.s]
  {
    if e in NumEntries(v.num) {
      NumEntriesFrom(v.num, e);
    } else {
      RecEntriesFrom(v.rec, e);
    }
  }

  lemma {:induction false} ReadableEntries(v: Value)
    requires v.Table?
    ensures Readable(v) <==> forall e :: e in Entries(v) ==> EntryReadable(e)
  {
    if Readable(v) {
      forall e | e in Entries(v) ensures EntryReadable(e) {
        EntryFrom(v, e);
      }
    } else {
      var e := UnreadableEntry(v);
    }
  }

  lemma {:induction false} UnreadableEntry(v: Value) returns (e: Entry)
    requires v.Table? && !Readable(v)
    ensures e in Entries(v) && !EntryReadable(e)
  {
    EntryOf(v);
    if k: int :| k in v.num && !(Readable(v.num[k]) && !MistakenForKey(v.num[k])) {
      e := Entry(Int(k), v.num[k]);
    } else {
      var k: string :| k in v.rec && !Readable(v.rec[k]);
      e := Entry(Str(k), v.rec[k]);
    }
  }

  // ---- collapsing what was read --------------------------------------------

  /** Array slots come back under 1, 2, ..., then the string keys. */
  lemma {:induction false} EntriesBackAt(v: Value, es: seq<Entry>, auto: int, n: nat)
    requires forall e :: e in es ==> e.value < v && (e.key.Int? || e.key.Str?)
    requires n <= |es|
    requires forall i :: 0 <= i < |es| ==> (es[i].key.Int? <==> i < n)
    ensures
      var r := EntriesBack(v, es, auto);
      forall i :: 0 <= i < |es| ==>
        && r[i].key == (if i < n then Int(auto + i) else Str(StrBack(es[i].key.s)))
        && es[i] in es && r[i].value == ReadBack(es[i].value)
    decreases |es|
  {
    if es != [] {
      EntriesBackAt(v, es[1..], if n > 0 then auto + 1 else auto, if n > 0 then n - 1 else 0);
      var r := EntriesBack(v, es, auto);
      var auto' := if es[0].key.Int? then auto + 1 else auto;
      assert r[1..] == EntriesBack(v, es[1..], auto');
      forall i | 0 <= i < |es|
        ensures r[i].key == (if i < n then Int(auto + i) else Str(StrBack(es[i].key.s)))
        ensures es[i] in es && r[i].value == ReadBack(es[i].value)
      {
        if i > 0 {
          assert r[i] == r[1..][i - 1] && es[i] == es[1..][i - 1];
        }
      }
    }
  }

  lemma {:induction false} NoNumPart(es: seq<Entry>)
    requires forall i :: 0 <= i < |es| ==> es[i].key.Str?
    ensures NumPart(es) == map[] && TextKeyed(es) == StrPart(es)
  {
    if es != [] { NoNumPart(es[..|es| - 1]); }
  }

  lemma {:induction false} NoStrPart(es: seq<Entry>)
    requires forall i :: 0 <= i < |es| ==> es[i].key.Int?
    ensures StrPart(es) == map[]
  {
    if es != [] { NoStrPart(es[..|es| - 1]); }
  }

  lemma {:induction false} EntriesSplit(v: Value)
    requires v.Table?
    ensures var es := Entries(v);
      && |es| == |v.num| + |SortedKeys.Strings(v.rec.Keys)|
      && forall i :: 0 <= i < |es| ==> (es[i].key.Int? <==> i < |v.num|)
  {
  }

  /** Numbered entries followed by named ones collapse into the table they spell. */
  lemma {:induction false} CollapseSorted(es: seq<Entry>, n: nat)
    requires n <= |es|
    requires forall i :: 0 <= i < n ==> es[i].key == Int(i + 1)
    requires forall i :: n <= i < |es| ==> es[i].key.Str?
    ensures Collapse(es) == Ok(Table(NumPart(es), StrPart(es)))
  {
    if n == 0 {
      NoNumPart(es);
      assert !HasNum(es);
    } else {
      assert es[0].key.Int?;
      assert HasNum(es);
      if n == |es| {
        NoStrPart(es);
        assert Dense(es) && !HasStr(es);
      } else {
        assert es[n].key.Str?;
        assert HasStr(es);
      }
    }
  }

  lemma {:induction false} CollapseBack(v: Value)
    requires v.Table?
    ensures Collapse(EntriesBack(v, Entries(v), 1)) == Ok(ReadBack(v))
  {
    EntriesSplit(v);
    EntriesBackAt(v, Entries(v), 1, |v.num|);
    CollapseSorted(EntriesBack(v, Entries(v), 1), |v.num|);
  }

  /** Reading in separator state sep. */
  function ReadFrom(sep: Sep, t: string, acc: seq<Entry>, auto: int): Result<(seq<Entry>, string)> {
    if sep == First then ReadEntries(t, acc, auto) else AfterEntry(t, acc, auto)
  }

  lemma {:induction false} EmptyBodyBack(sep: Sep, level: nat, acc: seq<Entry>, auto: int, rest: string)
    requires level > 0
    ensures ReadFrom(sep, CloseText(sep, level) + rest, acc, auto) == Ok((acc, rest))
  {
    var brace := "}" + rest;
    assert SkipSpace(brace) == brace && brace[1..] == rest;
    if sep == First {
      assert CloseText(sep, level) + rest == brace;
    } else {
      CloseFollows(sep, level, rest);
    }
  }

  lemma {:induction false} BodySplit(v: Value, es: seq<Entry>, sep: Sep, level: nat, rest: string)
    requires forall e :: e in es ==> e.value < v
    requires level > 0 && es != []
    ensures es[0] in es && (forall e :: e in es <==> e == es[0] || e in es[1..])
    ensures BodyText(v, es, sep, level) + rest
         == SepText(sep, level) + (KeyText(es[0].key) + (ValueText(es[0].value, level)
            + (BodyText(v, es[1..], SepAfter(es[0].value), level) + rest)))
  {
    RegroupFive(SepText(sep, level), KeyText(es[0].key), ValueText(es[0].value, level),
                BodyText(v, es[1..], SepAfter(es[0].value), level), rest);
  }

  lemma {:induction false} EntriesBackSplit(v: Value, es: seq<Entry>, acc: seq<Entry>, auto: int)
    requires forall e :: e in es ==> e.value < v && (e.key.Int? || e.key.Str?)
    requires es != []
    ensures es[0] in es
    ensures acc + EntriesBack(v, es, auto)
         == acc + [EntryBackAs(es[0], auto)] + EntriesBack(v, es[1..], NextAuto(es[0], auto))
  {
  }

  /** The body of a table: entry by entry. */
  lemma {:induction false} BodyBack(v: Value, es: seq<Entry>, sep: Sep, level: nat,
                                    acc: seq<Entry>, auto: int, rest: string)
    requires forall e :: e in es ==> e.value < v && (e.key.Int? || e.key.Str?)
    requires level > 0
    ensures
      var r := ReadFrom(sep, BodyText(v, es, sep, level) + rest, acc, auto);
      if forall e :: e in es ==> EntryReadable(e)
      then r == Ok((acc + EntriesBack(v, es, auto), rest))
      else r.Err? && BlamesAny(es, r.error)
    decreases v, 1, |es|
  {
    if es == [] {
      EmptyBodyBack(sep, level, acc, auto, rest);
      assert acc + EntriesBack(v, es, auto) == acc;
    } else {
      var e := es[0];
      BodySplit(v, es, sep, level, rest);
      var sep' := SepAfter(e.value);
      var tail := BodyText(v, es[1..], sep', level) + rest;
      BodyFollows(v, es[1..], sep', level, rest);
      ValueBack(e.value, level, tail);
      EntryBack(e, level, auto, tail);
      SepBack(sep, level, KeyText(e.key) + (ValueText(e.value, level) + tail), acc, auto);
      if EntryReadable(e) {
        BodyBack(v, es[1..], sep', level, acc + [EntryBackAs(e, auto)], NextAuto(e, auto), rest);
        EntriesBackSplit(v, es, acc, auto);
      }
    }
  }

  /** The entry at the head of t decides what reading t goes on with. */
  lemma {:induction false} EntriesStep(t: string, head: string, acc: seq<Entry>, auto: int)
    requires head != [] && SkipSpace(t) == head && head[0] != '}'
    ensures
      var r, e := ReadEntries(t, acc, auto), ReadEntry(head, auto);
      && (e.Err? ==> r == Err(e.error))
      && (e.Ok? ==> r == AfterEntry(e.value.2, acc + [e.value.0], e.value.1))
  {
  }

  lemma {:induction false} CommaStep(t: string, acc: seq<Entry>, auto: int)
    ensures AfterEntry("," + t, acc, auto) == ReadEntries(t, acc, auto)
  {
    var u := "," + t;
    assert SkipSpace(u) == u && u[1..] == t;
  }

  lemma {:induction false} SepTextSplit(sep: Sep, level: nat, head: string)
    ensures
      var blanks := if sep == AfterNumber then " " else "\n" + Indent(level);
      && All(blanks, IsSpace)
      && SepText(sep, level) + head == if sep == First then blanks + head else "," + (blanks + head)
  {
    IndentIsBlank(level);
  }

  /** Reading up to an entry, past the separator written before it. */
  lemma {:induction false} SepBack(sep: Sep, level: nat, head: string, acc: seq<Entry>, auto: int)
    requires head != [] && SkipSpace(head) == head && head[0] != '}'
    ensures
      var r, e := ReadFrom(sep, SepText(sep, level) + head, acc, auto), ReadEntry(head, auto);
      && (e.Err? ==> r == Err(e.error))
      && (e.Ok? ==> r == AfterEntry(e.value.2, acc + [e.value.0], e.value.1))
  {
    var blanks := if sep == AfterNumber then " " else "\n" + Indent(level);
    SepTextSplit(sep, level, head);
    SkipBlanks(blanks, head);
    EntriesStep(blanks + head, head, acc, auto);
    if sep != First {
      CommaStep(blanks + head, acc, auto);
    }
  }

  /** The entry that reading the text of e gives. */
  ghost function EntryBackAs(e: Entry, auto: int): Entry
    requires e.key.Int? || e.key.Str?
  {
    Entry(if e.key.Int? then Int(auto) else Str(StrBack(e.key.s)), ReadBack(e.value))
  }

  function NextAuto(e: Entry, auto: int): int {
    if e.key.Int? then auto + 1 else auto
  }

  /** One written entry. */
  lemma {:induction false} EntryBack(e: Entry, level: nat, auto: int, tail: string)
    requires e.key.Int? || e.key.Str?
    requires Delimited(tail) && NotAssignment(tail) && ReadsBack(e.value, level, tail)
    ensures
      var head := KeyText(e.key) + (ValueText(e.value, level) + tail);
      && head != [] && SkipSpace(head) == head && head[0] != '}'
      && var r := ReadEntry(head, auto);
         if EntryReadable(e) then r == Ok((EntryBackAs(e, auto), NextAuto(e, auto), tail))
         else r.Err? && Blames(e.value, r.error)
  {
    var text := ValueText(e.value, level) + tail;
    ValueStart(e.value, level, tail);
    if e.key.Int? {
      assert KeyText(e.key) + text == text;
      PositionalBack(e.value, level, auto, tail);
    } else {
      KeyedBack(e.key.s, text, auto);
    }
  }

  lemma {:induction false} NothingToSkip(t: string)
    requires t != [] && !IsSpace(t[0])
    requires t[0] == '-' ==> |t| > 1 && t[1] != '-'
    ensures SkipSpace(t) == t
  {
  }

  lemma {:induction false} StrStart(s: string)
    ensures StrText(s) != [] && (StrText(s)[0] == '"' || StrText(s)[0] == '[')
  {
    if HasNewline(s) {
      assert LongText(s, LevelFrom(s, 0))[0] == '[';
    }
  }

  lemma {:induction false} IntStart(n: int)
    ensures IntText(n) != [] && (IsDigit(IntText(n)[0]) || IntText(n)[0] == '-')
    ensures IntText(n)[0] == '-' ==> |IntText(n)| > 1 && IsDigit(IntText(n)[1])
  {
    if n < 0 {
      assert IntText(n)[1] == Decimal(-n)[0];
    }
  }

  lemma {:induction false} DecStart(u: int)
    ensures DecText(u) != [] && (IsDigit(DecText(u)[0]) || DecText(u)[0] == '-')
    ensures DecText(u)[0] == '-' ==> |DecText(u)| > 1 && IsDigit(DecText(u)[1])
  {
    var m := if u < 0 then -u else u;
    assert PositiveText(m)[0] == Decimal(m / UNIT)[0];
    if u < 0 {
      assert DecText(u)[1] == PositiveText(m)[0];
    }
  }

  /** How the text of a value starts. */
  lemma {:induction false} ValueStart(v: Value, level: nat, rest: string)
    ensures ValueText(v, level) != []
    ensures var t := ValueText(v, level) + rest; SkipSpace(t) == t && t[0] != '}' && t[0] != '='
  {
    match v {
      case Int(n) => IntStart(n);
      case Dec(u) => DecStart(u);
      case Str(s) => StrStart(s);
      case Nil =>
      case Bool(_) =>
      case Table(_, _) =>
    }
    NothingToSkip(ValueText(v, level) + rest);
  }

  lemma {:induction false} PositionalStep(t: string, auto: int)
    requires t != [] && t[0] != '[' && !(IsIdentStart(t[0]) && KeyAhead(t))
    ensures
      var r, v := ReadEntry(t, auto), ReadValue(t);
      if v.Err? then r == Err(v.error)
      else r == Ok((Entry(Int(auto), v.value.0), auto + 1, v.value.1))
  {
  }

  /** A long string in an array slot: its "[" is read as that of a key. */
  lemma {:induction false} MistakenStep(t: string, auto: int)
    requires |t| > 2 && t[0] == '[' && (t[1] == '=' || (t[1] == '[' && t[2] == '\n'))
    ensures ReadEntry(t, auto) == Err(Malformed)
  {
    var u := t[1..];
    assert SkipSpace(u) == u;
    assert ReadValue(u) == Err(Malformed) by {
      if u[0] == '[' {
        assert Run(u[1..], IsEquals) == 0;
      }
    }
  }

  lemma {:induction false} LongStart(s: string, k: nat, rest: string)
    ensures var t := LongText(s, k) + rest;
      |t| > 2 && t[0] == '[' && (t[1] == '=' || (t[1] == '[' && t[2] == '\n'))
  {
    var t := LongText(s, k) + rest;
    assert t == "[" + (Repeat('=', k) + ("[\n" + s + CloseBracket(k) + rest));
  }

  lemma {:induction false} WordIsNoKey(w: string, rest: string)
    requires w in {"nil", "true", "false"} && Delimited(rest) && NotAssignment(rest)
    ensures !KeyAhead(w + rest)
  {
    WordBack(w, rest);
  }

  /** An array slot, written without a key. */
  lemma {:induction false} PositionalBack(v: Value, level: nat, auto: int, rest: string)
    requires Delimited(rest) && NotAssignment(rest)
    ensures
      var t := ValueText(v, level) + rest;
      var r := ReadEntry(t, auto);
      if MistakenForKey(v) then r == Err(Malformed)
      else if ReadValue(t).Err? then r == Err(ReadValue(t).error)
      else r == Ok((Entry(Int(auto), ReadValue(t).value.0), auto + 1, ReadValue(t).value.1))
  {
    var t := ValueText(v, level) + rest;
    if MistakenForKey(v) {
      LongStart(v.s, LevelFrom(v.s, 0), rest);
      MistakenStep(t, auto);
    } else {
      match v {
        case Nil => WordIsNoKey("nil", rest);
        case Bool(b) => WordIsNoKey(if b then "true" else "false", rest);
        case Int(n) => IntStart(n);
        case Dec(u) => DecStart(u);
        case Str(s) =>
        case Table(_, _) =>
      }
      PositionalStep(t, auto);
    }
  }

  /** `key = text` with a plain identifier. */
  lemma {:induction false} PlainKeyStep(s: string, text: string, auto: int)
    requires IsPlainKey(s) && text != [] && SkipSpace(text) == text
    ensures
      var t, v := s + (" = " + text), ReadValue(text);
      && SkipSpace(t) == t && t[0] != '}'
      && if v.Err? then ReadEntry(t, auto) == Err(v.error)
         else ReadEntry(t, auto) == Ok((Entry(Str(s), v.value.0), auto, v.value.1))
  {
    var behind := " = " + text;
    var t := s + behind;
    RunAppend(s, behind, IsIdentPart);
    RunIs(behind, IsSpace, 1);
    assert behind[1..] == "= " + text;
    assert KeyAhead(t);
    AssignBack(text);
    assert t[..|s|] == s && t[|s|..] == behind;
  }

  /** A bracketed key whose text u reads as the string key, behind it rest. */
  lemma {:induction false} BracketStep(u: string, key: string, rest: string, auto: int)
    requires SkipSpace(u) == u && ReadValue(u) == Ok((Str(key), rest))
    requires StartsWith(rest, ']') && SkipSpace(rest) == rest
    ensures var v := ReadAssigned(rest[1..]);
      if v.Err? then ReadEntry("[" + u, auto) == Err(v.error)
      else ReadEntry("[" + u, auto) == Ok((Entry(Str(key), v.value.0), auto, v.value.1))
  {
    assert ("[" + u)[1..] == u;
  }

  lemma {:induction false} BehindKey(text: string)
    requires text != [] && SkipSpace(text) == text
    ensures var behind := "] = " + text;
      && SkipSpace(behind) == behind
      && ReadAssigned(behind[1..]) == ReadValue(text)
  {
    assert ("] = " + text)[1..] == " = " + text;
    AssignBack(text);
  }

  /** `["key"] = text` and its long-bracket form. */
  lemma {:induction false} BracketKeyStep(s: string, text: string, auto: int)
    requires text != [] && SkipSpace(text) == text
    ensures
      var t, v := "[" + (StrText(s) + ("] = " + text)), ReadValue(text);
      && SkipSpace(t) == t && t[0] != '}'
      && if v.Err? then ReadEntry(t, auto) == Err(v.error)
         else ReadEntry(t, auto) == Ok((Entry(Str(StrBack(s)), v.value.0), auto, v.value.1))
  {
    var behind := "] = " + text;
    var u := StrText(s) + behind;
    StrTextBack(s, behind);
    assert SkipSpace(u) == u;
    BehindKey(text);
    BracketStep(u, StrBack(s), behind, auto);
  }

  /** An assignment to a string key. */
  lemma {:induction false} KeyedBack(s: string, text: string, auto: int)
    requires text != [] && SkipSpace(text) == text
    ensures
      var t, v := KeyText(Str(s)) + text, ReadValue(text);
      && t != [] && SkipSpace(t) == t && t[0] != '}'
      && if v.Err? then ReadEntry(t, auto) == Err(v.error)
         else ReadEntry(t, auto) == Ok((Entry(Str(StrBack(s)), v.value.0), auto, v.value.1))
  {
    KeyTextSplit(s, text);
    if IsPlainKey(s) {
      PlainKeyStep(s, text, auto);
      PlainHasNoNewline(s);
    } else {
      BracketKeyStep(s, text, auto);
    }
  }

  lemma {:induction false} KeyTextSplit(s: string, text: string)
    ensures KeyText(Str(s)) + text
         == if IsPlainKey(s) then s + (" = " + text) else "[" + (StrText(s) + ("] = " + text))
  {
    if IsPlainKey(s) {
      Regroup(s, " = ", text);
    } else {
      RegroupFive("[", StrText(s), "]", " = ", text);
      Regroup("]", " = ", text);
      assert "]" + " = " == "] = ";
    }
  }

  lemma {:induction false} PlainHasNoNewline(s: string)
    requires IsPlainKey(s)
    ensures !HasNewline(s)
  {
  }

  lemma {:induction false} AssignBack(text: string)
    requires text != [] && SkipSpace(text) == text
    ensures ReadAssigned(" = " + text) == ReadValue(text)
  {
    var u := "= " + text;
    assert " = " + text == " " + u;
    SkipBlanks(" ", u);
    assert SkipSpace(u) == u && u[1..] == " " + text;
    SkipBlanks(" ", text);
  }
}
