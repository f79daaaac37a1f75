/** The reader of manif/parser.go as functions from the unread text to a result
    and the text left over. */
module LuaGrammar {
  import opened Text
  import opened LuaValue
  import opened LuaText

  predicate IsSpace(c: char) {
    c == ' ' || c == '\t' || c == '\n' || c == '\r'
  }

  predicate InComment(c: char) {
    c != '\n'
  }

  predicate StartsWith(t: string, c: char) {
    t != [] && t[0] == c
  }

  /** parser.skipWS: white space and single-line comments. */
  function SkipSpace(t: string): (r: string)
    ensures |r| <= |t|
  {
    if t == [] then t
    else if IsSpace(t[0]) then SkipSpace(t[1..])
    else if |t| > 1 && t[0] == '-' && t[1] == '-' then
      if |t| > 3 && t[2] == '[' && (t[3] == '[' || t[3] == '=') then t
      else SkipSpace(t[2 + Run(t[2..], InComment)..])
    else t
  }

  // ---- strings -----------------------------------------------------------

  function HexDigit(c: char): (d: int)
    ensures -1 <= d < 16
  {
    if '0' <= c <= '9' then c as int - '0' as int
    else if 'a' <= c <= 'f' then c as int - 'a' as int + 10
    else if 'A' <= c <= 'F' then c as int - 'A' as int + 10
    else -1
  }

  /** The single-character escapes: the byte each stands for. */
  const SIMPLE_ESCAPES: map<char, char> := map[
    'a' := 7 as char, 'b' := 8 as char, 'f' := 12 as char, 'n' := '\n', 'r' := '\r',
    't' := '\t', 'v' := 11 as char, '\\' := '\\', '"' := '"', '\'' := '\'', '\n' := '\n']

  /** How many characters a decimal escape takes: at most three digits. */
  function EscapeDigits(t: string): (n: nat)
    ensures n <= 3 && n <= |t|
    ensures All(t[..n], IsDigit)
    ensures t != [] && IsDigit(t[0]) ==> n > 0
  {
    if t == [] || !IsDigit(t[0]) then 0
    else if |t| == 1 || !IsDigit(t[1]) then 1
    else if |t| == 2 || !IsDigit(t[2]) then 2
    else 3
  }

  /** One escape sequence, t standing after the backslash: the byte it denotes and
      the text behind it. */
  function ReadEscape(t: string): (r: Result<(char, string)>)
    ensures r.Ok? ==> |r.value.1| < |t|
  {
    if t == [] then Err(Malformed)
    else if t[0] in SIMPLE_ESCAPES then Ok((SIMPLE_ESCAPES[t[0]], t[1..]))
    else if t[0] == 'x' then
      if |t| < 3 || HexDigit(t[1]) < 0 || HexDigit(t[2]) < 0 then Err(Malformed)
      else Ok(((HexDigit(t[1]) * 16 + HexDigit(t[2])) as char, t[3..]))
    else if IsDigit(t[0]) then
      var n := EscapeDigits(t);
      var code := DecimalValue(t[..n]);
      if code > 255 then Err(Malformed) else Ok((code as char, t[n..]))
    else Err(Malformed)
  }

  /** The rest of a short string, acc holding what was read of it. */
  function ReadShortBody(quote: char, t: string, acc: string): (r: Result<(string, string)>)
    ensures r.Ok? ==> |r.value.1| < |t|
    decreases |t|
  {
    if t == [] then Err(Malformed)
    else if t[0] == quote then Ok((acc, t[1..]))
    else if t[0] == '\n' then Err(Malformed)
    else if t[0] != '\\' then ReadShortBody(quote, t[1..], acc + [t[0]])
    else
      var e :- ReadEscape(t[1..]);
      ReadShortBody(quote, e.1, acc + [e.0])
  }

  /** parser.parseShortString, t starting with the quote. */
  function ReadShort(t: string): (r: Result<(string, string)>)
    requires t != []
    ensures r.Ok? ==> |r.value.1| < |t|
  {
    ReadShortBody(t[0], t[1..], "")
  }

  /** normalizeLongBracketEOL: every end-of-line sequence becomes "\n". */
  function FoldNewlines(s: string): (r: string)
    ensures '\r' !in r
    ensures '\r' !in s ==> r == s
  {
    if s == [] then []
    else if |s| > 1 && ((s[0] == '\r' && s[1] == '\n') || (s[0] == '\n' && s[1] == '\r')) then
      ['\n'] + FoldNewlines(s[2..])
    else if s[0] == '\r' then ['\n'] + FoldNewlines(s[1..])
    else
      assert '\r' !in s ==> '\r' !in s[1..];
      [s[0]] + FoldNewlines(s[1..])
  }

  /** The one newline dropped behind an opening long bracket. */
  function DropNewline(t: string): (r: string)
    ensures |r| <= |t|
  {
    if |t| > 1 && ((t[0] == '\r' && t[1] == '\n') || (t[0] == '\n' && t[1] == '\r')) then t[2..]
    else if t != [] && (t[0] == '\n' || t[0] == '\r') then t[1..]
    else t
  }

  /** A long bracket at the start of t, or None when there is no opening bracket. */
  datatype LongBracket = NotLong | Long(content: string, rest: string)

  /** The content of a long bracket of level k, its opening bracket and newline gone. */
  function ReadLongBody(u: string, k: nat): (r: Result<LongBracket>)
    ensures r.Ok? ==> r.value.Long? && |r.value.rest| < |u|
  {
    var end := Index(u, CloseBracket(k));
    if end < 0 then Err(Malformed)
    else Ok(Long(FoldNewlines(u[..end]), u[end + k + 2..]))
  }

  function ReadLong(t: string): (r: Result<LongBracket>)
    ensures r.Ok? && r.value.Long? ==> |r.value.rest| < |t|
  {
    if !StartsWith(t, '[') then Ok(NotLong) else
      var k := Run(t[1..], IsEquals);
      if k + 1 >= |t| || t[k + 1] != '[' then Ok(NotLong) else
        ReadLongBody(DropNewline(t[k + 2..]), k)
  }

  // ---- numbers -----------------------------------------------------------

  predicate StartsExponent(t: string) {
    t != [] && (t[0] == 'e' || t[0] == 'E')
  }

  /** The error on a literal with an exponent, t standing at its e: well formed it is a
      float64, and malformed without digits in the mantissa or in the exponent. */
  function ExponentError(mantissa: bool, t: string): Error
    requires StartsExponent(t)
  {
    var s := if |t| > 1 && (t[1] == '+' || t[1] == '-') then t[2..] else t[1..];
    if mantissa && s != [] && IsDigit(s[0]) then FloatLiteral else Malformed
  }

  /** A digit string as an int64. */
  function WholeValue(negative: bool, digits: string): Result<Value>
    requires All(digits, IsDigit)
  {
    var v := if negative then 0 - DecimalValue(digits) else DecimalValue(digits);
    if InInt64(v) then Ok(Int(v)) else Err(FloatLiteral)
  }

  /** Digits before and behind a point as a decimal. */
  function FractionalValue(negative: bool, digits: string, fraction: string): Result<Value>
    requires All(digits, IsDigit) && All(fraction, IsDigit)
  {
    if |fraction| > 5 then Err(FloatLiteral)
    else
      var m := DecimalValue(digits) * UNIT + FractionValue(fraction, 5);
      var u := if negative then 0 - m else m;
      if InDecimals(u) then Ok(Dec(u)) else Err(FloatLiteral)
  }

  /** An integer literal, t standing behind its digits. */
  function WholeNumber(negative: bool, digits: string, t: string): Result<(Value, string)>
    requires All(digits, IsDigit)
  {
    if StartsExponent(t) then Err(ExponentError(digits != "", t))
    else if digits == "" then Err(Malformed)
    else
      var v :- WholeValue(negative, digits);
      Ok((v, t))
  }

  /** A literal with a fraction, t standing behind the point. */
  function FractionNumber(negative: bool, digits: string, t: string): (r: Result<(Value, string)>)
    requires All(digits, IsDigit)
    ensures r.Ok? ==> |r.value.1| <= |t|
  {
    var n := Run(t, IsDigit);
    if StartsExponent(t[n..]) then Err(ExponentError(digits != "" || n > 0, t[n..]))
    else if digits == "" && n == 0 then Err(Malformed)
    else
      var v :- FractionalValue(negative, digits, t[..n]);
      Ok((v, t[n..]))
  }

  /** parser.parseNumber on integers and decimals; FloatLiteral for the other well-formed
      literals that the source hands to strconv.ParseFloat. */
  function ReadNumber(t: string): (r: Result<(Value, string)>)
    requires t != []
    requires t[0] == '-' || IsDigit(t[0])
    ensures r.Ok? ==> |r.value.1| < |t|
  {
    var negative := t[0] == '-';
    var u := if negative then t[1..] else t;
    var n := Run(u, IsDigit);
    var rest := u[n..];
    if StartsWith(rest, '.') then FractionNumber(negative, u[..n], rest[1..])
    else WholeNumber(negative, u[..n], rest)
  }

  // ---- values and tables -------------------------------------------------

  /** parser.identKeyLookahead: an identifier, white space, and a single "=". */
  predicate KeyAhead(t: string) {
    var u := t[Run(t, IsIdentPart)..];
    var w := u[Run(u, IsSpace)..];
    StartsWith(w, '=') && !(|w| > 1 && w[1] == '=')
  }

  /** parser.parseValue */
  function ReadValue(t: string): (r: Result<(Value, string)>)
    ensures r.Ok? ==> |r.value.1| < |t|
    decreases |t|, 0
  {
    var u := SkipSpace(t);
    if u == [] then Err(Malformed)
    else if u[0] == '{' then
      var es :- ReadEntries(u[1..], [], 1);
      var v :- Collapse(es.0);
      Ok((v, es.1))
    else if u[0] == '"' || u[0] == '\'' then
      var s :- ReadShort(u);
      Ok((Str(s.0), s.1))
    else if u[0] == '[' then
      var l :- ReadLong(u);
      if l.NotLong? then Err(Malformed) else Ok((Str(l.content), l.rest))
    else if u[0] == '-' || IsDigit(u[0]) then
      ReadNumber(u)
    else
      var n := Run(u, IsIdentPart);
      if n > 0 && u[..n] == "true" then Ok((Bool(true), u[n..]))
      else if n > 0 && u[..n] == "false" then Ok((Bool(false), u[n..]))
      else Err(Malformed)
  }

  /** The entries of a table, t standing behind its opening brace or a separator;
      acc holds the entries read and auto the next positional key. */
  function ReadEntries(t: string, acc: seq<Entry>, auto: int): (r: Result<(seq<Entry>, string)>)
    ensures r.Ok? ==> |r.value.1| < |t|
    decreases |t|, 3
  {
    var u := SkipSpace(t);
    if StartsWith(u, '}') then Ok((acc, u[1..])) else
      var e :- ReadEntry(u, auto);
      AfterEntry(e.2, acc + [e.0], e.1)
  }

  /** What may follow an entry: a separator and more entries, or the brace. */
  function AfterEntry(t: string, acc: seq<Entry>, auto: int): (r: Result<(seq<Entry>, string)>)
    ensures r.Ok? ==> |r.value.1| < |t|
    decreases |t|, 4
  {
    var u := SkipSpace(t);
    if StartsWith(u, ',') || StartsWith(u, ';') then ReadEntries(u[1..], acc, auto)
    else if StartsWith(SkipSpace(u), '}') then Ok((acc, SkipSpace(u)[1..]))
    else Err(Malformed)
  }

  /** One entry: the entry, the next positional key, the text behind it. */
  function ReadEntry(t: string, auto: int): (r: Result<(Entry, int, string)>)
    ensures r.Ok? ==> |r.value.2| < |t|
    decreases |t|, 2
  {
    if StartsWith(t, '[') then
      var k :- ReadValue(SkipSpace(t[1..]));
      var u := SkipSpace(k.1);
      if !StartsWith(u, ']') then Err(Malformed) else
        var v :- ReadAssigned(u[1..]);
        Ok((Entry(k.0, v.0), auto, v.1))
    else if t != [] && IsIdentStart(t[0]) && KeyAhead(t) then
      var n := Run(t, IsIdentPart);
      var v :- ReadAssigned(t[n..]);
      Ok((Entry(Str(t[..n]), v.0), auto, v.1))
    else
      var v :- ReadValue(t);
      Ok((Entry(Int(auto), v.0), auto + 1, v.1))
  }

  /** "=" and a value, white space allowed before and after the "=". */
  function ReadAssigned(t: string): (r: Result<(Value, string)>)
    ensures r.Ok? ==> |r.value.1| < |t|
    decreases |t|, 1
  {
    var u := SkipSpace(t);
    if !StartsWith(u, '=') then Err(Malformed) else ReadValue(SkipSpace(u[1..]))
  }

  /** Top-level assignments, out holding the ones read; t has no leading space. */
  function ReadFile(t: string, out: map<string, Value>): Result<Value>
    decreases |t|
  {
    if t == [] then Ok(Table(map[], out))
    else if !IsIdentStart(t[0]) then Err(Malformed)
    else
      var n := Run(t, IsIdentPart);
      var v :- ReadAssigned(t[n..]);
      ReadFile(SkipSpace(v.1), out[t[..n] := v.0])
  }

  /** manif.Parse */
  function Read(t: string): Result<Value> {
    ReadFile(SkipSpace(t), map[])
  }
}
