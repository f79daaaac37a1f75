/** How the files that manif.Write makes look. */
module LuaLayout {
  import opened Text
  import opened LuaValue
  import opened LuaText
  import SortedKeys

  // ---- strings ---------------------------------------------------------------

  predicate Visible(c: char) {
    32 <= c as int && c as int != 127
  }

  lemma {:induction false} DigitsVisible(t: string)
    requires All(t, IsDigit)
    ensures All(t, Visible)
  {
    forall i | 0 <= i < |t| ensures Visible(t[i]) {
      assert IsDigit(t[i]);
    }
  }

  lemma {:induction false} CharVisible(c: char, nextIsDigit: bool)
    requires c != '\n'
    ensures All(QuotedChar(c, nextIsDigit), Visible)
  {
    if IsControl(c) {
      var digits := if nextIsDigit then ThreeDigits(c as int) else Decimal(c as int);
      assert All(digits, IsDigit);
      DigitsVisible(digits);
    }
  }

  lemma {:induction false} BodyVisible(s: string)
    requires '\n' !in s
    ensures All(QuotedBody(s), Visible)
  {
    if s != [] {
      CharVisible(s[0], |s| > 1 && IsDigit(s[1]));
      BodyVisible(s[1..]);
    }
  }

  /** A string without a line feed is quoted without any control character. */
  lemma {:induction false} QuotedVisible(s: string)
    requires '\n' !in s
    ensures All(Quoted(s), Visible)
  {
    BodyVisible(s);
  }

  // ---- tables ----------------------------------------------------------------

  function Spaces(n: nat): string {
    Repeat(' ', n)
  }

  lemma {:induction false} IndentSpaces(level: nat)
    ensures Indent(level) == Spaces(3 * level)
  {
    if level > 0 { IndentSpaces(level - 1); }
  }

  /** What stands before an entry: it shares the line with a number before it, and else
      begins a line three spaces deeper for each table around it. */
  function Lead(previous: Sep, level: nat): string {
    match previous
    case First => "\n" + Spaces(3 * level)
    case AfterNumber => ", "
    case AfterOther => ",\n" + Spaces(3 * level)
  }

  /** The text of a table, entry by entry: what leads to it, its key, its value; and the
      brace, which begins a line unless the table is empty. */
  lemma {:induction false} TableLooks(v: Value, es: seq<Entry>, previous: Sep, level: nat)
    requires level > 0 && forall e :: e in es ==> e.value < v
    ensures es == [] ==>
      BodyText(v, es, previous, level) == (if previous == First then "}" else "\n" + Spaces(3 * (level - 1)) + "}")
    ensures es != [] ==>
      var e := es[0];
      assert e in es;
      var key := if e.key.Int? then "" else KeyText(e.key);
      var next := if e.value.Int? || e.value.Dec? then AfterNumber else AfterOther;
      BodyText(v, es, previous, level)
      == Lead(previous, level) + key + ValueText(e.value, level) + BodyText(v, es[1..], next, level)
  {
    IndentSpaces(level);
    IndentSpaces(level - 1);
  }

  const LUA_WORDS: seq<string> := [
    "and", "break", "do", "else", "elseif", "end", "false", "for", "function", "goto", "if", "in", "local", "nil",
    "not", "or", "repeat", "return", "then", "true", "until", "while"]

  lemma WordsAre(s: string)
    ensures s in KEYWORDS <==> s in LUA_WORDS
  {
  }

  /** A key stands bare if it is an identifier and no word of Lua, and else in brackets. */
  lemma {:induction false} KeyLooks(s: string)
    ensures
      var bare := s != "" && (forall i :: 0 <= i < |s| ==>
                    'a' <= s[i] <= 'z' || 'A' <= s[i] <= 'Z' || s[i] == '_' || (i > 0 && '0' <= s[i] <= '9'));
      KeyText(Str(s)) == if bare && s !in LUA_WORDS then s + " = " else "[" + StrText(s) + "] = "
  {
    if s != "" && IsIdentStart(s[0]) && All(s, IsIdentPart) {
      forall i | 0 <= i < |s|
        ensures 'a' <= s[i] <= 'z' || 'A' <= s[i] <= 'Z' || s[i] == '_' || (i > 0 && '0' <= s[i] <= '9')
      {
        assert IsIdentPart(s[i]);
      }
    }
    WordsAre(s);
    Regroup("[", StrText(s), "]");
  }
}
