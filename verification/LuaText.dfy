/** The text manif.Write produces, as a function of the tree. */
module LuaText {
  import opened Text
  import opened LuaValue
  import SortedKeys

  const KEYWORDS: set<string> := {
    "and", "break", "do", "else", "elseif", "end", "false", "for", "function", "goto",
    "if", "in", "local", "nil", "not", "or", "repeat", "return", "then", "true",
    "until", "while"
  }

  predicate IsIdentStart(c: char) {
    'a' <= c <= 'z' || 'A' <= c <= 'Z' || c == '_'
  }

  predicate IsIdentPart(c: char) {
    IsIdentStart(c) || IsDigit(c)
  }

  predicate IsPlainKey(s: string) {
    s != "" && IsIdentStart(s[0]) && All(s, IsIdentPart) && s !in KEYWORDS
  }

  predicate IsBlank(c: char) {
    c == ' '
  }

  predicate IsEquals(c: char) {
    c == '='
  }

  // ---- strings -----------------------------------------------------------

  predicate HasNewline(s: string) {
    '\n' in s || '\r' in s
  }

  /** "]" followed by k "=" and another bracket. */
  function CloseBracket(k: nat): string {
    "]" + Repeat('=', k) + "]"
  }

  function OpenBracket(k: nat): string {
    "[" + Repeat('=', k) + "["
  }

  /** A level whose closing bracket does not occur in s + "]". */
  predicate Usable(s: string, k: nat) {
    !Contains(s + "]", CloseBracket(k))
  }

  function LongText(s: string, k: nat): string {
    OpenBracket(k) + "\n" + s + CloseBracket(k)
  }

  predicate IsControl(c: char) {
    c as int < 0x20 || c as int == 0x7F
  }

  /** Three decimal digits, as "%03d". */
  function ThreeDigits(n: nat): string
    requires n < 1000
  {
    [Digit(n / 100), Digit(n / 10 % 10), Digit(n % 10)]
  }

  function QuotedChar(c: char, nextIsDigit: bool): string {
    if c == '"' || c == '\\' then ['\\', c]
    else if c == '\n' then ['\\', '\n']
    else if IsControl(c) then
      ['\\'] + (if nextIsDigit then ThreeDigits(c as int) else Decimal(c as int))
    else [c]
  }

  function QuotedBody(s: string): string {
    if s == [] then []
    else QuotedChar(s[0], |s| > 1 && IsDigit(s[1])) + QuotedBody(s[1..])
  }

  /** luaQ(s) */
  function Quoted(s: string): string {
    "\"" + QuotedBody(s) + "\""
  }

  /** The least level writeLongBracket can use. */
  ghost predicate LeastUsable(s: string, k: nat) {
    Usable(s, k) && forall j: nat :: j < k ==> !Usable(s, j)
  }

  function LevelFrom(s: string, k: nat): (r: nat)
    requires k <= |s|
    ensures k <= r <= |s| && Usable(s, r)
    ensures forall j: nat :: k <= j < r ==> !Usable(s, j)
    decreases |s| - k
  {
    if Usable(s, k) then k
    else
      LongLevelFails(s);
      LevelFrom(s, k + 1)
  }

  /** A closing bracket with |s| equals signs is longer than s + "]". */
  lemma LongLevelFails(s: string)
    ensures Usable(s, |s|)
  {
    assert |CloseBracket(|s|)| == |s| + 2;
  }

  function StrText(s: string): string {
    if HasNewline(s) then LongText(s, LevelFrom(s, 0)) else Quoted(s)
  }

  // ---- values ------------------------------------------------------------

  function Indent(level: nat): string
    ensures All(Indent(level), IsBlank)
  {
    if level == 0 then "" else "   " + Indent(level - 1)
  }

  /** What precedes the next entry: writeTable's `sep` and `indent` variables. */
  datatype Sep = First | AfterNumber | AfterOther

  function SepText(sep: Sep, level: nat): string {
    match sep
    case First => "\n" + Indent(level)
    case AfterNumber => ", "
    case AfterOther => ",\n" + Indent(level)
  }

  function SepAfter(v: Value): Sep {
    if v.Int? || v.Dec? then AfterNumber else AfterOther
  }

  /** The key assignment of an entry; integer keys have none. */
  function KeyText(key: Value): string {
    if key.Str? then
      (if IsPlainKey(key.s) then key.s else "[" + StrText(key.s) + "]") + " = "
    else ""
  }

  function DecText(u: int): string {
    if u < 0 then "-" + PositiveText(-u) else PositiveText(u)
  }

  function ValueText(v: Value, level: nat): string
    decreases v, 1, 0
  {
    match v
    case Nil => "nil"
    case Bool(b) => if b then "true" else "false"
    case Int(n) => IntText(n)
    case Dec(u) => DecText(u)
    case Str(s) => StrText(s)
    case Table(_, _) => "{" + BodyText(v, Entries(v), First, level + 1)
  }

  /** Entries es of table v from separator state sep on, and the closing brace. */
  function BodyText(v: Value, es: seq<Entry>, sep: Sep, level: nat): string
    requires forall e :: e in es ==> e.value < v
    requires level > 0
    decreases v, 0, |es|
  {
    if es == [] then CloseText(sep, level)
    else
      assert es[0] in es;
      SepText(sep, level) + KeyText(es[0].key) + ValueText(es[0].value, level)
      + BodyText(v, es[1..], SepAfter(es[0].value), level)
  }

  function CloseText(sep: Sep, level: nat): string
    requires level > 0
  {
    (if sep != First then "\n" + Indent(level - 1) else "") + "}"
  }

  /** The assignments of a top-level table. */
  function AssignmentsText(es: seq<Entry>): string
    requires forall e :: e in es ==> e.key.Str?
  {
    if es == [] then ""
    else
      assert es[0] in es;
      es[0].key.s + " = " + ValueText(es[0].value, 0) + "\n" + AssignmentsText(es[1..])
  }

  /** Tables that Write accepts: every top-level key is a plain identifier. */
  predicate Writable(v: Value) {
    v.Table? && v.num == map[] && forall k :: k in v.rec ==> IsPlainKey(k)
  }

  function FileText(v: Value): string
    requires Writable(v)
  {
    AssignmentsText(RecEntries(v.rec))
  }
}
