/** Reading the persist format: every text that a syntax tree spells reads as what the
    tree denotes. */
module LuaReading {
  import opened Text
  import opened LuaValue
  import opened LuaText
  import opened LuaGrammar
  import opened LuaSyntax
  import LuaRoundTrip

  // ---- syntax trees ----------------------------------------------------------

  type Space = seq<Gap>

  datatype Literal =
    | Short(quote: char, bytes: seq<Byte>, s: string)   // a string in quotes, and what it spells
    | Long(level: nat, pieces: seq<Piece>)
    | Numeral(negative: bool, whole: string, fraction: Fraction)
    | Truth(b: bool)
    | Braces(space: Space, fields: seq<Field>)

  datatype Key =
    | Slot                                                             // value
    | Name(name: string, blanks: string)                               // name = value
    | Bracket(before: Space, key: Literal, after: Space, behind: Space) // [key] = value

  /** A field with the space behind "=", behind the value and behind the separator. */
  datatype Field = Field(key: Key, pad: Space, value: Literal, after: Space, sep: string, behind: Space)

  function LiteralText(l: Literal): string
    decreases l, 0
  {
    match l
    case Short(quote, bytes, _) => [quote] + (BytesText(bytes) + [quote])
    case Long(level, pieces) => LongLiteral(level, pieces)
    case Numeral(negative, whole, fraction) => NumeralText(negative, whole, fraction)
    case Truth(b) => if b then "true" else "false"
    case Braces(space, fields) => "{" + (SpaceText(space) + (FieldsText(fields) + "}"))
  }

  function KeyText(k: Key): string
    decreases k, 0
  {
    match k
    case Slot => ""
    case Name(name, blanks) => name + (blanks + "=")
    case Bracket(before, key, after, behind) =>
      "[" + (SpaceText(before) + (LiteralText(key) + (SpaceText(after) + ("]" + (SpaceText(behind) + "=")))))
  }

  function FieldsText(fields: seq<Field>): string
    decreases fields, 1
  {
    if fields == [] then "" else FieldText(fields[0]) + FieldsText(fields[1..])
  }

  function FieldText(f: Field): string
    decreases f, 0
  {
    KeyText(f.key) + (SpaceText(f.pad) + (LiteralText(f.value) + (SpaceText(f.after) + (f.sep + SpaceText(f.behind)))))
  }

  // ---- what they denote ------------------------------------------------------

  function Denotes(l: Literal): Result<Value>
    requires LiteralOk(l)
    decreases l, 0
  {
    match l
    case Short(_, _, s) => Ok(Str(s))
    case Long(_, pieces) => Ok(Str(LongMeans(pieces)))
    case Numeral(negative, whole, fraction) => Ok(NumeralMeans(negative, whole, fraction))
    case Truth(b) => Ok(Bool(b))
    case Braces(_, fields) =>
      var es :- EntriesOf(fields, 1);
      Collapse(es)
  }

  /** The entries of the fields; those without a key are numbered from auto. */
  function EntriesOf(fields: seq<Field>, auto: int): Result<seq<Entry>>
    requires FieldsOk(fields)
    decreases fields, 1
  {
    if fields == [] then Ok([])
    else
      var f := fields[0];
      assert FieldOk(f);
      var key :- KeyDenotes(f.key, auto);
      var value :- Denotes(f.value);
      var rest :- EntriesOf(fields[1..], if f.key.Slot? then auto + 1 else auto);
      Ok([Entry(key, value)] + rest)
  }

  function KeyDenotes(k: Key, auto: int): Result<Value>
    requires KeyOk(k)
    decreases k, 0
  {
    match k
    case Slot => Ok(Int(auto))
    case Name(name, _) => Ok(Str(name))
    case Bracket(_, key, _, _) => Denotes(key)
  }

  // ---- which are proper ------------------------------------------------------

  predicate NameChar(c: char) {
    'a' <= c <= 'z' || 'A' <= c <= 'Z' || c == '_' || '0' <= c <= '9'
  }

  predicate NameOk(name: string) {
    name != "" && !('0' <= name[0] <= '9') && forall i :: 0 <= i < |name| ==> NameChar(name[i])
  }

  predicate BlankChar(c: char) {
    c == ' ' || c == '\t' || c == '\n' || c == '\r'
  }

  ghost predicate LiteralOk(l: Literal)
    decreases l, 0
  {
    match l
    case Short(quote, bytes, s) => (quote == '"' || quote == '\'') && SpellsAll(bytes, s, quote)
    case Long(level, pieces) => PiecesOk(pieces) && Usable(PiecesText(pieces), level)
    case Numeral(negative, whole, fraction) => NumeralOk(negative, whole, fraction)
    case Truth(_) => true
    case Braces(space, fields) => SpaceOk(space) && FieldsOk(fields)
  }

  ghost predicate KeyOk(k: Key)
    decreases k, 0
  {
    match k
    case Slot => true
    case Name(name, blanks) => NameOk(name) && All(blanks, BlankChar)
    case Bracket(before, key, after, behind) =>
      SpaceOk(before) && LiteralOk(key) && SpaceOk(after) && SpaceOk(behind)
  }

  /** Separators stand between fields, and may stand behind the last one. */
  ghost predicate FieldsOk(fields: seq<Field>)
    decreases fields, 1
  {
    fields != [] ==> FieldOk(fields[0]) && (|fields| > 1 ==> fields[0].sep != "") && FieldsOk(fields[1..])
  }

  /** A long string without a key begins like a bracketed key, and is not read. */
  ghost predicate FieldOk(f: Field)
    decreases f, 0
  {
    && KeyOk(f.key) && LiteralOk(f.value) && (f.key.Slot? ==> !f.value.Long? && f.pad == [])
    && SpaceOk(f.pad) && SpaceOk(f.after) && SpaceOk(f.behind)
    && (f.sep == "," || f.sep == ";" || (f.sep == "" && f.behind == []))
  }

  // ---- reading literals ------------------------------------------------------

  /** The text reads as r with rest behind it, and does not begin with space. */
  predicate ReadsAs(t: string, r: Result<Value>, rest: string) {
    && SkipSpace(t) == t && t != []
    && ReadValue(t) == if r.Ok? then Ok((r.value, rest)) else Err(r.error)
  }

  lemma {:induction false} ShortBack(l: Literal, rest: string)
    requires l.Short? && LiteralOk(l)
    ensures ReadsAs(LiteralText(l) + rest, Ok(Str(l.s)), rest)
  {
    var t := [l.quote] + (BytesText(l.bytes) + ([l.quote] + rest));
    ShortStringBack(l.bytes, l.s, l.quote, rest);
    Regroup([l.quote], BytesText(l.bytes) + [l.quote], rest);
    Regroup(BytesText(l.bytes), [l.quote], rest);
    assert LiteralText(l) + rest == t;
    assert SkipSpace(t) == t;
  }

  lemma {:induction false} BracketRead(t: string, s: string, rest: string)
    requires StartsWith(t, '[') && ReadLong(t) == Ok(LuaGrammar.Long(s, rest))
    ensures ReadsAs(t, Ok(Str(s)), rest)
  {
    assert SkipSpace(t) == t;
  }

  lemma {:induction false} LongBack(l: Literal, rest: string)
    requires l.Long? && LiteralOk(l)
    ensures ReadsAs(LiteralText(l) + rest, Ok(Str(LongMeans(l.pieces))), rest)
  {
    LongStringBack(l.level, l.pieces, rest);
    BracketRead(LongLiteral(l.level, l.pieces) + rest, LongMeans(l.pieces), rest);
  }

  lemma {:induction false} DigitsSkip(negative: bool, whole: string, fraction: Fraction, rest: string)
    requires NumeralOk(negative, whole, fraction)
    ensures var t := NumeralText(negative, whole, fraction) + rest; SkipSpace(t) == t
  {
    NumeralSplit(negative, whole, fraction, rest);
    var u := whole + if fraction.Point? then "." + (fraction.digits + rest) else rest;
    var t := (if negative then "-" else "") + u;
    assert u != [] && (IsDigit(u[0]) || (negative && u[0] == '.'));
    if negative { assert t[1] == u[0]; } else { assert t == u; }
  }

  lemma {:induction false} DigitsRead(t: string, v: Value, rest: string)
    requires NumberReads(t, v, rest) && SkipSpace(t) == t
    ensures ReadsAs(t, Ok(v), rest)
  {
    LuaRoundTrip.ReadDigits(t);
  }

  lemma {:induction false} NumberBack(l: Literal, rest: string)
    requires l.Numeral? && LiteralOk(l) && NumeralEnds(l.fraction, rest)
    ensures ReadsAs(LiteralText(l) + rest, Ok(NumeralMeans(l.negative, l.whole, l.fraction)), rest)
  {
    var t := NumeralText(l.negative, l.whole, l.fraction) + rest;
    NumeralBack(l.negative, l.whole, l.fraction, rest);
    DigitsSkip(l.negative, l.whole, l.fraction, rest);
    DigitsRead(t, NumeralMeans(l.negative, l.whole, l.fraction), rest);
  }

  lemma {:induction false} WordRead(w: string, rest: string)
    requires (w == "true" || w == "false") && WordEnds(rest)
    ensures ReadsAs(w + rest, Ok(Bool(w == "true")), rest)
  {
    var t := w + rest;
    RunAppend(w, rest, IsIdentPart);
    assert SkipSpace(t) == t;
  }

  /** Text that the literal does not run into. */
  predicate Follows(l: Literal, rest: string) {
    match l
    case Numeral(_, _, fraction) => NumeralEnds(fraction, rest)
    case Truth(_) => WordEnds(rest)
    case _ => true
  }

  /** Text behind which a word in a slot is not taken for a key. */
  predicate NoAssignment(t: string) {
    Apart(t) && !StartsWith(t[Run(t, IsSpace)..], '=')
  }

  lemma {:induction false} TruthBack(l: Literal, rest: string)
    requires l.Truth? && WordEnds(rest)
    ensures ReadsAs(LiteralText(l) + rest, Ok(Bool(l.b)), rest)
    ensures NoAssignment(rest) ==> !KeyAhead(LiteralText(l) + rest)
  {
    var w := LiteralText(l);
    WordRead(w, rest);
    RunAppend(w, rest, IsIdentPart);
  }

  // ---- what stands between fields --------------------------------------------

  lemma {:induction false} RunBlank(c: char, t: string)
    requires IsSpace(c)
    ensures var u := [c] + t; u[Run(u, IsSpace)..] == t[Run(t, IsSpace)..]
  {
    var u := [c] + t;
    assert u[1..] == t;
    assert Run(u, IsSpace) == 1 + Run(t, IsSpace);
    assert u[1 + Run(t, IsSpace)..] == u[1..][Run(t, IsSpace)..];
  }

  lemma {:induction false} NoRun(t: string)
    requires t != [] && !IsSpace(t[0]) && t[0] != '=' && Apart(t)
    ensures NoAssignment(t)
  {
    RunIs(t, IsSpace, 0);
    assert t[0..] == t;
  }

  lemma {:induction false} GapApart(g: Gap, t: string)
    requires GapOk(g) && NoAssignment(t)
    ensures NoAssignment(GapText(g) + t)
  {
    match g
    case Blank(c) => RunBlank(c, t);
    case Comment(text) =>
      assert (GapText(g) + t)[0] == '-';
      NoRun(GapText(g) + t);
  }

  lemma {:induction false} SpaceApart(gs: seq<Gap>, t: string)
    requires SpaceOk(gs) && t != [] && (t[0] == ',' || t[0] == ';' || t[0] == '}' || t[0] == ']')
    ensures NoAssignment(SpaceText(gs) + t)
  {
    if gs == [] {
      assert SpaceText(gs) + t == t;
      NoRun(t);
    } else {
      SpaceApart(gs[1..], t);
      GapApart(gs[0], SpaceText(gs[1..]) + t);
      Regroup(GapText(gs[0]), SpaceText(gs[1..]), t);
    }
  }

  // ---- reading fields --------------------------------------------------------

  /** How a literal begins. */
  predicate Leads(l: Literal, t: string) {
    && t != [] && t[0] != '}' && t[0] != '='
    && (t[0] == '[' ==> l.Long?) && (IsIdentStart(t[0]) ==> l.Truth?)
  }

  lemma {:induction false} LiteralLeads(l: Literal, rest: string)
    requires LiteralOk(l)
    ensures Leads(l, LiteralText(l) + rest)
  {
    if l.Numeral? {
      NumeralSplit(l.negative, l.whole, l.fraction, rest);
    }
  }

  /** "=", space and a value behind the key. */
  lemma {:induction false} AssignRead(u: string, pad: Space, vt: string)
    requires SpaceOk(pad) && SkipSpace(u) == "=" + (SpaceText(pad) + vt) && SkipSpace(vt) == vt
    ensures ReadAssigned(u) == ReadValue(vt)
  {
    assert SkipSpace(u)[1..] == SpaceText(pad) + vt;
    SpaceSkipped(pad, vt);
  }

  lemma {:induction false} SpaceNoEquals(pad: Space, vt: string)
    requires SpaceOk(pad) && vt != [] && vt[0] != '='
    ensures var t := SpaceText(pad) + vt; t != [] && t[0] != '='
  {
    if pad != [] {
      assert GapOk(pad[0]);
      assert GapText(pad[0]) != [];
    } else {
      assert SpaceText(pad) + vt == vt;
    }
  }

  lemma {:induction false} NameRuns(name: string, rest: string)
    requires NameOk(name) && (rest == [] || !IsIdentPart(rest[0]))
    ensures var t := name + rest;
      Run(t, IsIdentPart) == |name| && t[..|name|] == name && t[|name|..] == rest && IsIdentStart(t[0])
  {
    assert All(name, IsIdentPart);
    RunAppend(name, rest, IsIdentPart);
  }

  lemma {:induction false} BlanksRun(blanks: string, rest: string)
    requires All(blanks, BlankChar) && rest != [] && !IsSpace(rest[0])
    ensures var t := blanks + rest;
      && t[Run(t, IsSpace)..] == rest && SkipSpace(t) == SkipSpace(rest) && (!IsIdentPart(rest[0]) ==> !IsIdentPart(t[0]))
  {
    assert All(blanks, IsSpace);
    RunAppend(blanks, rest, IsSpace);
    LuaRoundTrip.SkipBlanks(blanks, rest);
  }

  /** What an entry is, from its key and the reading of its value. */
  function Entered(key: Value, auto: int, v: Result<(Value, string)>): Result<(Entry, int, string)> {
    if v.Err? then Err(v.error) else Ok((Entry(key, v.value.0), auto, v.value.1))
  }

  lemma {:induction false} NameAhead(name: string, blanks: string, rest: string)
    requires NameOk(name) && All(blanks, BlankChar) && rest != [] && rest[0] != '='
    ensures var t := name + (blanks + ("=" + rest));
      KeyAhead(t) && IsIdentStart(t[0]) && t[..Run(t, IsIdentPart)] == name
      && t[Run(t, IsIdentPart)..] == blanks + ("=" + rest)
  {
    BlanksRun(blanks, "=" + rest);
    NameRuns(name, blanks + ("=" + rest));
    assert ("=" + rest)[1] == rest[0];
  }

  lemma {:induction false} NamedEntry(t: string, name: string, u: string, auto: int)
    requires t != [] && IsIdentStart(t[0]) && KeyAhead(t)
    requires t[..Run(t, IsIdentPart)] == name && t[Run(t, IsIdentPart)..] == u
    ensures ReadEntry(t, auto) == Entered(Str(name), auto, ReadAssigned(u))
  {
    assert t[0] != '[';
  }

  lemma {:induction false} NameRead(name: string, blanks: string, pad: Space, vt: string, auto: int)
    requires NameOk(name) && All(blanks, BlankChar) && SpaceOk(pad)
    requires SkipSpace(vt) == vt && vt != [] && vt[0] != '='
    ensures
      var t := name + (blanks + ("=" + (SpaceText(pad) + vt)));
      ReadEntry(t, auto) == Entered(Str(name), auto, ReadValue(vt))
  {
    var equals := "=" + (SpaceText(pad) + vt);
    var t := name + (blanks + equals);
    SpaceNoEquals(pad, vt);
    NameAhead(name, blanks, SpaceText(pad) + vt);
    NamedEntry(t, name, blanks + equals, auto);
    BlanksRun(blanks, equals);
    assert SkipSpace(equals) == equals;
    AssignRead(blanks + equals, pad, vt);
  }

  lemma {:induction false} BracketedRead(t: string, kt: string, key: Value, krest: string, u: string, pad: Space,
                                         vt: string, auto: int)
    requires StartsWith(t, '[') && SkipSpace(t[1..]) == kt && ReadValue(kt) == Ok((key, krest))
    requires SkipSpace(krest) == "]" + u && SkipSpace(u) == "=" + (SpaceText(pad) + vt)
    requires SpaceOk(pad) && SkipSpace(vt) == vt
    ensures ReadEntry(t, auto) == Entered(key, auto, ReadValue(vt))
  {
    assert SkipSpace(krest)[1..] == u;
    AssignRead(u, pad, vt);
  }

  lemma {:induction false} BracketedFails(t: string, kt: string, e: Error, auto: int)
    requires StartsWith(t, '[') && SkipSpace(t[1..]) == kt && ReadValue(kt) == Err(e)
    ensures ReadEntry(t, auto) == Err(e)
  {
  }

  /** What stands behind a bracketed key. */
  function BehindKey(after: Space, behind: Space, rest: string): string {
    SpaceText(after) + ("]" + (SpaceText(behind) + ("=" + rest)))
  }

  lemma {:induction false} BracketSplit(k: Key, rest: string)
    requires k.Bracket?
    ensures KeyText(k) + rest == "[" + (SpaceText(k.before) + (LiteralText(k.key) + BehindKey(k.after, k.behind, rest)))
  {
    var a, b := SpaceText(k.after), SpaceText(k.behind);
    Regroup("[", SpaceText(k.before) + (LiteralText(k.key) + (a + ("]" + (b + "=")))), rest);
    Regroup(SpaceText(k.before), LiteralText(k.key) + (a + ("]" + (b + "="))), rest);
    Regroup(LiteralText(k.key), a + ("]" + (b + "=")), rest);
    Regroup(a, "]" + (b + "="), rest);
    Regroup("]", b + "=", rest);
    Regroup(b, "=", rest);
  }

  lemma {:induction false} BehindSkips(after: Space, behind: Space, rest: string)
    requires SpaceOk(after) && SpaceOk(behind)
    ensures SkipSpace(BehindKey(after, behind, rest)) == "]" + (SpaceText(behind) + ("=" + rest))
    ensures SkipSpace(SpaceText(behind) + ("=" + rest)) == "=" + rest
    ensures NoAssignment(BehindKey(after, behind, rest))
  {
    var u := SpaceText(behind) + ("=" + rest);
    SpaceSkipped(behind, "=" + rest);
    assert SkipSpace("=" + rest) == "=" + rest;
    SpaceSkipped(after, "]" + u);
    assert SkipSpace("]" + u) == "]" + u;
    SpaceApart(after, "]" + u);
  }

  // ---- reading trees ---------------------------------------------------------

  /** What reading a field gives, with rest behind its value. */
  function FieldRead(f: Field, auto: int, rest: string): Result<(Entry, int, string)>
    requires FieldOk(f)
  {
    var key :- KeyDenotes(f.key, auto);
    var value :- Denotes(f.value);
    Ok((Entry(key, value), if f.key.Slot? then auto + 1 else auto, rest))
  }

  /** A field up to its value. */
  function FieldHead(f: Field): string {
    KeyText(f.key) + (SpaceText(f.pad) + LiteralText(f.value))
  }

  lemma {:induction false} SlotBack(f: Field, auto: int, rest: string)
    requires FieldOk(f) && f.key.Slot? && NoAssignment(rest)
    requires ReadsAs(LiteralText(f.value) + rest, Denotes(f.value), rest)
    ensures ReadEntry(FieldHead(f) + rest, auto) == FieldRead(f, auto, rest)
  {
    var t := LiteralText(f.value) + rest;
    assert FieldHead(f) == LiteralText(f.value);
    LiteralLeads(f.value, rest);
    if f.value.Truth? { TruthBack(f.value, rest); }
    LuaRoundTrip.PositionalStep(t, auto);
  }

  lemma {:induction false} NamedBack(f: Field, auto: int, rest: string)
    requires FieldOk(f) && f.key.Name? && NoAssignment(rest)
    requires ReadsAs(LiteralText(f.value) + rest, Denotes(f.value), rest)
    ensures ReadEntry(FieldHead(f) + rest, auto) == FieldRead(f, auto, rest)
  {
    var vt := LiteralText(f.value) + rest;
    LiteralLeads(f.value, rest);
    NameRead(f.key.name, f.key.blanks, f.pad, vt, auto);
    Regroup(f.key.name, f.key.blanks + "=", SpaceText(f.pad) + LiteralText(f.value));
    Regroup(f.key.blanks, "=", SpaceText(f.pad) + LiteralText(f.value));
    Regroup(f.key.name, f.key.blanks + ("=" + (SpaceText(f.pad) + LiteralText(f.value))), rest);
    Regroup(f.key.blanks, "=" + (SpaceText(f.pad) + LiteralText(f.value)), rest);
    Regroup("=", SpaceText(f.pad) + LiteralText(f.value), rest);
    Regroup(SpaceText(f.pad), LiteralText(f.value), rest);
  }

  lemma {:induction false} HeadSplit(f: Field, rest: string)
    ensures FieldHead(f) + rest == KeyText(f.key) + (SpaceText(f.pad) + (LiteralText(f.value) + rest))
  {
    Regroup(KeyText(f.key), SpaceText(f.pad) + LiteralText(f.value), rest);
    Regroup(SpaceText(f.pad), LiteralText(f.value), rest);
  }

  lemma {:induction false} BracketedBack(f: Field, auto: int, rest: string)
    requires FieldOk(f) && f.key.Bracket? && LiteralOk(f.key.key)
    requires ReadsAs(LiteralText(f.value) + rest, Denotes(f.value), rest)
    requires
      var krest := BehindKey(f.key.after, f.key.behind, SpaceText(f.pad) + (LiteralText(f.value) + rest));
      ReadsAs(LiteralText(f.key.key) + krest, Denotes(f.key.key), krest)
    ensures ReadEntry(FieldHead(f) + rest, auto) == FieldRead(f, auto, rest)
  {
    var k := f.key;
    var vt := LiteralText(f.value) + rest;
    var behind := SpaceText(f.pad) + vt;
    var krest := BehindKey(k.after, k.behind, behind);
    var kt := LiteralText(k.key) + krest;
    HeadSplit(f, rest);
    BracketSplit(k, behind);
    var t := "[" + (SpaceText(k.before) + kt);
    assert t[1..] == SpaceText(k.before) + kt;
    SpaceSkipped(k.before, kt);
    BehindSkips(k.after, k.behind, behind);
    var d := Denotes(k.key);
    if d.Err? {
      BracketedFails(t, kt, d.error, auto);
    } else {
      BracketedRead(t, kt, d.value, krest, SpaceText(k.behind) + ("=" + behind), f.pad, vt, auto);
    }
  }

  lemma {:induction false} HeadLeads(f: Field, rest: string)
    requires FieldOk(f)
    ensures var t := FieldHead(f) + rest; SkipSpace(t) == t && t != [] && t[0] != '}'
  {
    HeadSplit(f, rest);
    var t := FieldHead(f) + rest;
    match f.key
    case Slot =>
      LiteralLeads(f.value, rest);
      LiteralSkips(f.value, rest);
      assert t == LiteralText(f.value) + rest;
    case Name(name, blanks) =>
      assert t[0] == name[0] && NameChar(name[0]);
    case Bracket(before, key, after, behind) =>
      assert t[0] == '[';
  }

  lemma {:induction false} LiteralSkips(l: Literal, rest: string)
    requires LiteralOk(l)
    ensures SkipSpace(LiteralText(l) + rest) == LiteralText(l) + rest
  {
    var t := LiteralText(l) + rest;
    if l.Numeral? {
      DigitsSkip(l.negative, l.whole, l.fraction, rest);
    } else {
      assert t != [] && t[0] in {'[', '"', '\'', 't', 'f', '{'};
    }
  }

  /** A field is read as its key and its value denote. */
  lemma {:induction false} FieldBack(f: Field, auto: int, rest: string)
    requires FieldOk(f) && NoAssignment(rest)
    ensures ReadEntry(FieldHead(f) + rest, auto) == FieldRead(f, auto, rest)
    decreases f, 2
  {
    LiteralBack(f.value, rest);
    match f.key
    case Slot => SlotBack(f, auto, rest);
    case Name(_, _) => NamedBack(f, auto, rest);
    case Bracket(_, key, after, behind) =>
      BehindSkips(after, behind, SpaceText(f.pad) + (LiteralText(f.value) + rest));
      LiteralBack(key, BehindKey(after, behind, SpaceText(f.pad) + (LiteralText(f.value) + rest)));
      BracketedBack(f, auto, rest);
  }

  /** A literal is read as what it denotes. */
  lemma {:induction false} LiteralBack(l: Literal, rest: string)
    requires LiteralOk(l) && Follows(l, rest)
    ensures ReadsAs(LiteralText(l) + rest, Denotes(l), rest)
    decreases l, 2
  {
    match l
    case Short(_, _, _) => ShortBack(l, rest);
    case Long(_, _) => LongBack(l, rest);
    case Numeral(_, _, _) => NumberBack(l, rest);
    case Truth(_) => TruthBack(l, rest);
    case Braces(space, fields) =>
      FieldsBack(fields, space, [], 1, rest);
      BracesBack(l, rest);
  }

  /** What reading fields gives, behind the entries in acc. */
  function FieldsRead(fields: seq<Field>, acc: seq<Entry>, auto: int, rest: string): Result<(seq<Entry>, string)>
    requires FieldsOk(fields)
  {
    var es :- EntriesOf(fields, auto);
    Ok((acc + es, rest))
  }

  lemma {:induction false} BracesBack(l: Literal, rest: string)
    requires l.Braces? && LiteralOk(l)
    requires
      ReadEntries(SpaceText(l.space) + (FieldsText(l.fields) + ("}" + rest)), [], 1) == FieldsRead(l.fields, [], 1, rest)
    ensures ReadsAs(LiteralText(l) + rest, Denotes(l), rest)
  {
    var body := SpaceText(l.space) + (FieldsText(l.fields) + ("}" + rest));
    var t := "{" + body;
    Regroup("{", SpaceText(l.space) + (FieldsText(l.fields) + "}"), rest);
    Regroup(SpaceText(l.space), FieldsText(l.fields) + "}", rest);
    Regroup(FieldsText(l.fields), "}", rest);
    assert LiteralText(l) + rest == t && t[1..] == body && SkipSpace(t) == t;
    var es := EntriesOf(l.fields, 1);
    if es.Ok? {
      assert [] + es.value == es.value;
      CollapsePanics(es.value);
    }
  }

  lemma {:induction false} FieldsBack(fields: seq<Field>, space: Space, acc: seq<Entry>, auto: int, rest: string)
    requires FieldsOk(fields) && SpaceOk(space)
    ensures
      ReadEntries(SpaceText(space) + (FieldsText(fields) + ("}" + rest)), acc, auto) == FieldsRead(fields, acc, auto, rest)
    decreases fields, 3
  {
    if fields == [] {
      NoFields(space, acc, auto, rest);
    } else {
      var f, end := fields[0], "}" + rest;
      assert FieldOk(f);
      BehindValueApart(fields, end);
      FieldBack(f, auto, BehindValue(f, FieldsText(fields[1..]) + end));
      var e := FieldRead(f, auto, rest);
      if e.Ok? { AfterBack(fields, acc + [e.value.0], e.value.1, rest); }
      FirstField(fields, space, acc, auto, rest);
    }
  }

  lemma {:induction false} NoFields(space: Space, acc: seq<Entry>, auto: int, rest: string)
    requires SpaceOk(space)
    ensures ReadEntries(SpaceText(space) + (FieldsText([]) + ("}" + rest)), acc, auto) == FieldsRead([], acc, auto, rest)
  {
    var end := "}" + rest;
    assert FieldsText([]) + end == end && SkipSpace(end) == end && end[1..] == rest;
    SpaceSkipped(space, end);
    assert acc + [] == acc;
  }

  /** The first field and those behind it, when each is read as it denotes. */
  lemma {:induction false} FirstField(fields: seq<Field>, space: Space, acc: seq<Entry>, auto: int, rest: string)
    requires FieldsOk(fields) && fields != [] && SpaceOk(space) && FieldOk(fields[0])
    requires
      var behind := BehindValue(fields[0], FieldsText(fields[1..]) + ("}" + rest));
      && ReadEntry(FieldHead(fields[0]) + behind, auto) == FieldRead(fields[0], auto, behind)
      && (FieldRead(fields[0], auto, rest).Ok? ==>
            var e := FieldRead(fields[0], auto, rest).value;
            AfterEntry(behind, acc + [e.0], e.1) == FieldsRead(fields[1..], acc + [e.0], e.1, rest))
    ensures
      ReadEntries(SpaceText(space) + (FieldsText(fields) + ("}" + rest)), acc, auto) == FieldsRead(fields, acc, auto, rest)
  {
    FieldsHead(fields, space, "}" + rest, acc, auto);
    var e := FieldRead(fields[0], auto, rest);
    if e.Ok? { FieldsJoin(fields, acc, auto, rest, e.value.0, e.value.1); }
  }

  /** What stands behind a value. */
  function BehindValue(f: Field, more: string): string {
    SpaceText(f.after) + (f.sep + (SpaceText(f.behind) + more))
  }

  lemma {:induction false} LastBehind(f: Field, end: string)
    requires f.sep == "" && f.behind == []
    ensures BehindValue(f, end) == SpaceText(f.after) + end
  {
  }

  lemma {:induction false} BehindValueApart(fields: seq<Field>, end: string)
    requires FieldsOk(fields) && fields != [] && end != [] && end[0] == '}'
    ensures NoAssignment(BehindValue(fields[0], FieldsText(fields[1..]) + end))
  {
    var f := fields[0];
    assert FieldOk(f);
    if f.sep == "" {
      assert fields[1..] == [] && FieldsText(fields[1..]) + end == end;
      LastBehind(f, end);
      SpaceApart(f.after, end);
    } else {
      SpaceApart(f.after, f.sep + (SpaceText(f.behind) + (FieldsText(fields[1..]) + end)));
    }
  }

  lemma {:induction false} FieldsSplit(fields: seq<Field>, end: string)
    requires fields != []
    ensures FieldsText(fields) + end == FieldHead(fields[0]) + BehindValue(fields[0], FieldsText(fields[1..]) + end)
  {
    var f, more := fields[0], FieldsText(fields[1..]);
    var a, b := SpaceText(f.after), SpaceText(f.behind);
    Regroup(FieldText(f), more, end);
    Regroup(KeyText(f.key), SpaceText(f.pad) + (LiteralText(f.value) + (a + (f.sep + b))), more + end);
    Regroup(SpaceText(f.pad), LiteralText(f.value) + (a + (f.sep + b)), more + end);
    Regroup(LiteralText(f.value), a + (f.sep + b), more + end);
    Regroup(a, f.sep + b, more + end);
    Regroup(f.sep, b, more + end);
    HeadSplit(f, BehindValue(f, more + end));
  }

  lemma {:induction false} FieldsHead(fields: seq<Field>, space: Space, end: string, acc: seq<Entry>, auto: int)
    requires FieldsOk(fields) && fields != [] && SpaceOk(space)
    ensures
      var head := FieldHead(fields[0]) + BehindValue(fields[0], FieldsText(fields[1..]) + end);
      var r, e := ReadEntries(SpaceText(space) + (FieldsText(fields) + end), acc, auto), ReadEntry(head, auto);
      && (e.Err? ==> r == Err(e.error))
      && (e.Ok? ==> r == AfterEntry(e.value.2, acc + [e.value.0], e.value.1))
  {
    var behind := BehindValue(fields[0], FieldsText(fields[1..]) + end);
    assert FieldOk(fields[0]);
    FieldsSplit(fields, end);
    HeadLeads(fields[0], behind);
    SpaceSkipped(space, FieldsText(fields) + end);
    LuaRoundTrip.EntriesStep(SpaceText(space) + (FieldsText(fields) + end), FieldHead(fields[0]) + behind, acc, auto);
  }

  lemma {:induction false} FieldsJoin(fields: seq<Field>, acc: seq<Entry>, auto: int, rest: string, e: Entry, next: int)
    requires FieldsOk(fields) && fields != []
    requires FieldRead(fields[0], auto, rest).Ok?
    requires FieldRead(fields[0], auto, rest).value.0 == e && FieldRead(fields[0], auto, rest).value.1 == next
    ensures FieldsRead(fields, acc, auto, rest) == FieldsRead(fields[1..], acc + [e], next, rest)
  {
    var more := EntriesOf(fields[1..], next);
    if more.Ok? { Regroup(acc, [e], more.value); }
  }

  lemma {:induction false} SeparatorRead(f: Field, more: string, acc: seq<Entry>, auto: int)
    requires FieldOk(f) && f.sep != ""
    ensures AfterEntry(BehindValue(f, more), acc, auto) == ReadEntries(SpaceText(f.behind) + more, acc, auto)
  {
    var u := f.sep + (SpaceText(f.behind) + more);
    SpaceSkipped(f.after, u);
    assert SkipSpace(u) == u && u[1..] == SpaceText(f.behind) + more;
  }

  lemma {:induction false} EndRead(f: Field, rest: string, acc: seq<Entry>, auto: int)
    requires FieldOk(f) && f.sep == ""
    ensures AfterEntry(BehindValue(f, "}" + rest), acc, auto) == Ok((acc, rest))
  {
    var end := "}" + rest;
    LastBehind(f, end);
    SpaceSkipped(f.after, end);
    assert SkipSpace(end) == end && end[1..] == rest;
  }

  lemma {:induction false} AfterBack(fields: seq<Field>, acc: seq<Entry>, auto: int, rest: string)
    requires FieldsOk(fields) && fields != []
    ensures
      AfterEntry(BehindValue(fields[0], FieldsText(fields[1..]) + ("}" + rest)), acc, auto)
      == FieldsRead(fields[1..], acc, auto, rest)
    decreases fields, 2
  {
    var f := fields[0];
    assert FieldOk(f);
    if f.sep == "" {
      assert fields[1..] == [] && FieldsText(fields[1..]) + ("}" + rest) == "}" + rest;
      EndRead(f, rest, acc, auto);
      assert acc + [] == acc;
    } else {
      SeparatorRead(f, FieldsText(fields[1..]) + ("}" + rest), acc, auto);
      FieldsBack(fields[1..], f.behind, acc, auto, rest);
    }
  }

  // ---- what a table keeps of its fields --------------------------------------

  /** The entry at i is the last one with its key. */
  ghost predicate LastWith(es: seq<Entry>, i: nat, key: Value) {
    i < |es| && es[i].key == key && forall j :: i < j < |es| ==> es[j].key != key
  }

  ghost predicate HasLast(es: seq<Entry>, key: Value, value: Value) {
    exists i: nat :: LastWith(es, i, key) && es[i].value == value
  }

  lemma {:induction false} LastHere(es: seq<Entry>, key: Value, value: Value)
    requires es != [] && es[|es| - 1].key == key
    ensures HasLast(es, key, value) <==> es[|es| - 1].value == value
  {
    var n := |es| - 1;
    assert LastWith(es, n, key);
    forall i: nat | LastWith(es, i, key) ensures i == n {
    }
  }

  lemma {:induction false} LastBefore(es: seq<Entry>, key: Value, value: Value)
    requires es != [] && es[|es| - 1].key != key
    ensures HasLast(es, key, value) <==> HasLast(es[..|es| - 1], key, value)
  {
    var init := es[..|es| - 1];
    forall i: nat ensures LastWith(es, i, key) <==> LastWith(init, i, key) {
    }
    if HasLast(es, key, value) {
      var i: nat :| LastWith(es, i, key) && es[i].value == value;
      assert LastWith(init, i, key) && init[i].value == value;
    }
    if HasLast(init, key, value) {
      var i: nat :| LastWith(init, i, key) && init[i].value == value;
      assert LastWith(es, i, key) && es[i].value == value;
    }
  }

  lemma {:induction false} LastMore(es: seq<Entry>, key: Value, value: Value)
    requires es != []
    ensures
      var n := |es| - 1;
      HasLast(es, key, value) <==> if es[n].key == key then es[n].value == value else HasLast(es[..n], key, value)
  {
    if es[|es| - 1].key == key { LastHere(es, key, value); } else { LastBefore(es, key, value); }
  }

  lemma {:induction false} NumberedMeaning(es: seq<Entry>, n: int, value: Value)
    ensures n in NumPart(es) && NumPart(es)[n] == value <==> HasLast(es, Int(n), value)
  {
    if es != [] {
      NumberedMeaning(es[..|es| - 1], n, value);
      LastMore(es, Int(n), value);
    }
  }

  lemma {:induction false} NamedMeaning(es: seq<Entry>, s: string, value: Value)
    ensures s in StrPart(es) && StrPart(es)[s] == value <==> HasLast(es, Str(s), value)
  {
    if es != [] {
      NamedMeaning(es[..|es| - 1], s, value);
      LastMore(es, Str(s), value);
    }
  }

  lemma {:induction false} AllNamed(es: seq<Entry>)
    requires forall i :: 0 <= i < |es| ==> es[i].key.Str?
    ensures TextKeyed(es) == StrPart(es)
  {
    if es != [] { AllNamed(es[..|es| - 1]); }
  }

  /** What a table keeps: of each key the last value.  Named fields keep their names; next
      to them, or where the numbers run 1, 2, ..., numbered ones keep their numbers. */
  lemma {:induction false} TableKeeps(es: seq<Entry>, n: int, s: string, value: Value)
    requires Collapse(es).Ok?
    requires (HasNum(es) && HasStr(es)) || Dense(es) || forall i :: 0 <= i < |es| ==> es[i].key.Str?
    ensures Collapse(es).value.Table?
    ensures n in Collapse(es).value.num && Collapse(es).value.num[n] == value <==> HasLast(es, Int(n), value)
    ensures s in Collapse(es).value.rec && Collapse(es).value.rec[s] == value <==> HasLast(es, Str(s), value)
  {
    NumberedMeaning(es, n, value);
    NamedMeaning(es, s, value);
    if forall i :: 0 <= i < |es| ==> es[i].key.Str? { AllNamed(es); }
  }

  // ---- files -----------------------------------------------------------------

  /** name = value, with the space behind the name, behind "=" and behind the value. */
  datatype Statement = Statement(name: string, before: Space, pad: Space, value: Literal, after: Space)

  /** How a file ends: after its last line, or in a comment that no line end closes. */
  datatype Ending = Plain | Unclosed(text: string)

  predicate EndingOk(e: Ending) {
    e.Unclosed? ==> '\n' !in e.text && !HasPrefix(e.text, "[[") && !HasPrefix(e.text, "[=")
  }

  function EndingText(e: Ending): string {
    if e.Plain? then "" else "--" + e.text
  }

  function StatementsText(ss: seq<Statement>, end: string): string {
    if ss == [] then end
    else
      ss[0].name + (SpaceText(ss[0].before) + ("=" + (SpaceText(ss[0].pad) + (LiteralText(ss[0].value)
        + (SpaceText(ss[0].after) + StatementsText(ss[1..], end))))))
  }

  /** Numbers and words do not run into the next name. */
  ghost predicate StatementsOk(ss: seq<Statement>, end: string) {
    ss != [] ==>
      && NameOk(ss[0].name) && LiteralOk(ss[0].value)
      && SpaceOk(ss[0].before) && SpaceOk(ss[0].pad) && SpaceOk(ss[0].after)
      && Follows(ss[0].value, SpaceText(ss[0].after) + StatementsText(ss[1..], end))
      && StatementsOk(ss[1..], end)
  }

  /** The assignments of a file, the last one of a repeated name winning. */
  function Assigned(ss: seq<Statement>, end: string, out: map<string, Value>): Result<Value>
    requires StatementsOk(ss, end)
  {
    if ss == [] then Ok(Table(map[], out))
    else
      var v :- Denotes(ss[0].value);
      Assigned(ss[1..], end, out[ss[0].name := v])
  }

  lemma {:induction false} EndingSkipped(e: Ending)
    requires EndingOk(e)
    ensures SkipSpace(EndingText(e)) == ""
  {
    if e.Unclosed? {
      var t := EndingText(e);
      assert t[2..] == e.text;
      RunIs(e.text, InComment, |e.text|);
      assert t[2 + |e.text|..] == "";
      if |e.text| >= 2 { assert e.text[..2] == [e.text[0], e.text[1]]; }
    }
  }

  lemma {:induction false} SpaceFirst(gs: seq<Gap>, t: string)
    requires SpaceOk(gs) && (gs != [] || Apart(t))
    ensures Apart(SpaceText(gs) + t)
  {
    if gs == [] {
      assert SpaceText(gs) + t == t;
    } else {
      assert GapOk(gs[0]) && GapText(gs[0]) != [];
    }
  }

  lemma {:induction false} StatementRead(name: string, before: Space, pad: Space, vt: string, out: map<string, Value>)
    requires NameOk(name) && SpaceOk(before) && SpaceOk(pad) && SkipSpace(vt) == vt
    ensures
      var t, v := name + (SpaceText(before) + ("=" + (SpaceText(pad) + vt))), ReadValue(vt);
      && SkipSpace(t) == t
      && ReadFile(t, out) == if v.Err? then Err(v.error) else ReadFile(SkipSpace(v.value.1), out[name := v.value.0])
  {
    var equals := "=" + (SpaceText(pad) + vt);
    var behind := SpaceText(before) + equals;
    var t := name + behind;
    assert Apart(equals);
    SpaceFirst(before, equals);
    NameRuns(name, behind);
    assert SkipSpace(equals) == equals;
    SpaceSkipped(before, equals);
    AssignRead(behind, pad, vt);
  }

  lemma {:induction false} StatementsRead(ss: seq<Statement>, end: string, out: map<string, Value>)
    requires StatementsOk(ss, end) && SkipSpace(end) == ""
    ensures ReadFile(SkipSpace(StatementsText(ss, end)), out) == Assigned(ss, end, out)
  {
    if ss != [] {
      var s := ss[0];
      var rest := SpaceText(s.after) + StatementsText(ss[1..], end);
      var vt := LiteralText(s.value) + rest;
      LiteralBack(s.value, rest);
      StatementRead(s.name, s.before, s.pad, vt, out);
      SpaceSkipped(s.after, StatementsText(ss[1..], end));
      var v := Denotes(s.value);
      if v.Ok? { StatementsRead(ss[1..], end, out[s.name := v.value]); }
    }
  }

  /** A text of the persist format reads as its assignments denote, whatever its space,
      comments, quotes, escapes, levels and separators. */
  lemma {:induction false} FileReads(space: Space, ss: seq<Statement>, e: Ending)
    requires SpaceOk(space) && EndingOk(e) && StatementsOk(ss, EndingText(e))
    ensures Read(SpaceText(space) + StatementsText(ss, EndingText(e))) == Assigned(ss, EndingText(e), map[])
  {
    EndingSkipped(e);
    SpaceSkipped(space, StatementsText(ss, EndingText(e)));
    StatementsRead(ss, EndingText(e), map[]);
  }
}
