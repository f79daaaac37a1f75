/** manif/parser.go: a cursor over the source bytes.  Every method is proved
    against the grammar function of LuaGrammar on the text from the cursor on. */
module LuaParser {
  import opened Text
  import opened LuaValue
  import opened LuaText
  import opened LuaGrammar

  class Parser {
    const src: string
    var pos: nat

    ghost predicate Valid()
      reads this
    {
      pos <= |src|
    }

    /** The unread text. */
    ghost function Rest(): (t: string)
      requires Valid()
      reads this
      ensures |t| == |src| - pos
    {
      src[pos..]
    }

    constructor (b: string)
      ensures Valid() && src == b && Rest() == b
    {
      src := b;
      pos := 0;
    }

    /** The loops `for p.pos < len(p.src) && class(p.src[p.pos])` of the source. */
    method TakeRun(class_: char -> bool) returns (taken: string)
      requires Valid()
      modifies this`pos
      ensures Valid()
      ensures var t := old(Rest()); var n := Run(t, class_);
        taken == t[..n] && Rest() == t[n..] && pos == old(pos) + n
    {
      var start := pos;
      ghost var t := Rest();
      while pos < |src| && class_(src[pos])
        invariant start <= pos <= |src|
        invariant forall i :: start <= i < pos ==> class_(src[i])
        decreases |src| - pos
      {
        pos := pos + 1;
      }
      RunIs(t, class_, pos - start);
      taken := src[start..pos];
    }

    /** One turn of skipWS's loop: a blank or a comment, if there is one. */
    method SkipOne() returns (more: bool)
      requires Valid() && pos < |src|
      modifies this`pos
      ensures Valid() && SkipSpace(Rest()) == SkipSpace(old(Rest()))
      ensures more ==> pos > old(pos)
      ensures !more ==> SkipSpace(Rest()) == Rest()
    {
      ghost var t := Rest();
      var c := src[pos];
      if IsSpace(c) {
        pos := pos + 1;
        assert Rest() == t[1..];
        return true;
      }
      if c != '-' || pos + 1 >= |src| || src[pos + 1] != '-' {
        return false;
      }
      if pos + 3 < |src| && src[pos + 2] == '[' && (src[pos + 3] == '[' || src[pos + 3] == '=') {
        return false;
      }
      pos := pos + 2;
      var comment := TakeRun(InComment);
      assert Rest() == t[2 + |comment|..];
      return true;
    }

    method SkipWS()
      requires Valid()
      modifies this`pos
      ensures Valid() && Rest() == SkipSpace(old(Rest()))
    {
      var more := true;
      while more && pos < |src|
        invariant Valid() && SkipSpace(Rest()) == SkipSpace(old(Rest()))
        invariant !more ==> SkipSpace(Rest()) == Rest()
        decreases more, |src| - pos
      {
        more := SkipOne();
      }
    }

    function Peek(): (c: char)
      requires Valid()
      reads this
      ensures c != 0 as char ==> StartsWith(Rest(), c)
      ensures forall d :: d != 0 as char && StartsWith(Rest(), d) ==> c == d
    {
      if pos >= |src| then 0 as char else src[pos]
    }

    method Consume(c: char) returns (ok: bool)
      requires Valid()
      modifies this`pos
      ensures Valid()
      ensures ok == StartsWith(old(Rest()), c)
      ensures Rest() == if ok then old(Rest())[1..] else old(Rest())
    {
      ok := pos < |src| && src[pos] == c;
      if ok {
        pos := pos + 1;
      }
    }

    method ParseIdent() returns (name: string)
      requires Valid()
      modifies this`pos
      ensures Valid()
      ensures var t := old(Rest()); var n := Run(t, IsIdentPart);
        name == t[..n] && Rest() == t[n..]
    {
      name := TakeRun(IsIdentPart);
    }

    /** The cursor is back where it was. */
    method IdentKeyLookahead() returns (isAssign: bool)
      requires Valid()
      modifies this`pos
      ensures pos == old(pos)
      ensures isAssign == KeyAhead(Rest())
    {
      var save := pos;
      var _ := ParseIdent();
      var _ := TakeRun(IsSpace);
      isAssign := pos < |src| && src[pos] == '=';
      if isAssign && pos + 1 < |src| && src[pos + 1] == '=' {
        isAssign := false;
      }
      pos := save;
    }

    method ParseEscape() returns (r: Result<char>)
      requires Valid()
      modifies this`pos
      ensures Valid()
      ensures match ReadEscape(old(Rest())) {
                case Ok(e) => r == Ok(e.0) && Rest() == e.1
                case Err(e) => r == Err(e)
              }
    {
      ghost var t := Rest();
      if pos >= |src| {
        return Err(Malformed);
      }
      var esc := src[pos];
      if esc in SIMPLE_ESCAPES {
        pos := pos + 1;
        return Ok(SIMPLE_ESCAPES[esc]);
      }
      if esc == 'x' {
        if pos + 2 >= |src| {
          return Err(Malformed);
        }
        var h1, h2 := HexDigit(src[pos + 1]), HexDigit(src[pos + 2]);
        if h1 < 0 || h2 < 0 {
          return Err(Malformed);
        }
        pos := pos + 3;
        return Ok((h1 * 16 + h2) as char);
      }
      if !IsDigit(esc) {
        return Err(Malformed);
      }
      var n := 0;
      var digits := 0;
      var start := pos;
      while digits < 3 && pos < |src| && IsDigit(src[pos])
        invariant pos == start + digits <= |src| && digits <= 3
        invariant forall i :: 0 <= i < digits ==> IsDigit(t[i])
        invariant n == DecimalValue(t[..digits])
        decreases 3 - digits
      {
        n := n * 10 + DigitValue(src[pos]);
        pos := pos + 1;
        digits := digits + 1;
        assert t[..digits][..digits - 1] == t[..digits - 1];
      }
      assert digits == EscapeDigits(t);
      if n > 255 {
        return Err(Malformed);
      }
      return Ok(n as char);
    }

    method ParseShortString() returns (r: Result<string>)
      requires Valid() && pos < |src|
      modifies this`pos
      ensures Valid()
      ensures match ReadShort(old(Rest())) {
                case Ok(s) => r == Ok(s.0) && Rest() == s.1
                case Err(e) => r == Err(e)
              }
    {
      var quote := src[pos];
      pos := pos + 1;
      var b: string := "";
      ghost var want := ReadShort(old(Rest()));
      while pos < |src|
        invariant Valid() && want == ReadShortBody(quote, Rest(), b)
        decreases |src| - pos
      {
        ghost var t := Rest();
        var c := src[pos];
        if c == quote {
          pos := pos + 1;
          return Ok(b);
        }
        if c == '\n' {
          return Err(Malformed);
        }
        pos := pos + 1;
        assert Rest() == t[1..];
        if c != '\\' {
          b := b + [c];
        } else {
          var e := ParseEscape();
          if e.Err? {
            return Err(e.error);
          }
          b := b + [e.value];
        }
      }
      return Err(Malformed);
    }

    method SkipOneNewline()
      requires Valid()
      modifies this`pos
      ensures Valid() && Rest() == DropNewline(old(Rest()))
    {
      if pos + 1 < |src| && src[pos] == '\r' && src[pos + 1] == '\n' {
        pos := pos + 2;
      } else if pos + 1 < |src| && src[pos] == '\n' && src[pos + 1] == '\r' {
        pos := pos + 2;
      } else if pos < |src| && (src[pos] == '\n' || src[pos] == '\r') {
        pos := pos + 1;
      }
    }

    /** An opening long bracket; without one the cursor stays. */
    method OpenLongBracket() returns (equals: nat, ok: bool)
      requires Valid() && StartsWith(Rest(), '[')
      modifies this`pos
      ensures Valid()
      ensures var t := old(Rest());
        && equals == Run(t[1..], IsEquals)
        && ok == (equals + 1 < |t| && t[equals + 1] == '[')
        && Rest() == if ok then t[equals + 2..] else t
    {
      var save := pos;
      ghost var t := Rest();
      pos := pos + 1;
      assert Rest() == t[1..];
      var run := TakeRun(IsEquals);
      equals := |run|;
      ok := pos < |src| && src[pos] == '[';
      pos := if ok then pos + 1 else save;
    }

    /** The content up to the first closing bracket, and past the bracket. */
    method UpToClose(equals: nat) returns (r: Result<string>)
      requires Valid()
      modifies this`pos
      ensures Valid()
      ensures match ReadLongBody(old(Rest()), equals) {
                case Ok(l) => r == Ok(l.content) && Rest() == l.rest
                case Err(e) => r == Err(e)
              }
    {
      ghost var t := Rest();
      var closeBracket := CloseBracket(equals);
      var end := Index(src[pos..], closeBracket);
      if end < 0 {
        return Err(Malformed);
      }
      r := Ok(FoldNewlines(src[pos..][..end]));
      pos := pos + end + |closeBracket|;
      assert Rest() == t[end + equals + 2..];
    }

    /** ok tells whether there is a long bracket; without one the cursor stays. */
    method TryParseLongBracket() returns (r: Result<string>, ok: bool)
      requires Valid()
      modifies this`pos
      ensures Valid()
      ensures match ReadLong(old(Rest())) {
                case Ok(NotLong) => r.Ok? && !ok && Rest() == old(Rest())
                case Ok(Long(content, rest)) => r == Ok(content) && ok && Rest() == rest
                case Err(e) => r == Err(e)
              }
    {
      r, ok := Ok(""), Peek() == '[';
      if ok {
        var equals;
        equals, ok := OpenLongBracket();
        if ok {
          SkipOneNewline();
          r := UpToClose(equals);
        }
      }
    }

    method ParseNumber() returns (r: Result<Value>)
      requires Valid() && pos < |src| && (src[pos] == '-' || IsDigit(src[pos]))
      modifies this`pos
      ensures Valid()
      ensures match ReadNumber(old(Rest())) {
                case Ok(n) => r == Ok(n.0) && Rest() == n.1
                case Err(e) => r == Err(e)
              }
    {
      ghost var t := Rest();
      var negative := Consume('-');
      ghost var u := Rest();
      assert u == if t[0] == '-' then t[1..] else t;
      var digits := TakeRun(IsDigit);
      if Peek() == '.' {
        r := ParseFraction(negative, digits);
      } else {
        r := ParseWhole(negative, digits);
      }
    }

    /** The exponent of a literal whose mantissa has been read. */
    method ParseExponent(mantissa: bool) returns (e: Error)
      requires Valid() && StartsExponent(Rest())
      modifies this`pos
      ensures Valid() && e == ExponentError(mantissa, old(Rest()))
    {
      pos := pos + 1;
      if Peek() == '+' || Peek() == '-' {
        pos := pos + 1;
      }
      ghost var s := Rest();
      var digits := TakeRun(IsDigit);
      e := if mantissa && digits != "" then FloatLiteral else Malformed;
    }

    /** An integer whose digits have been read. */
    method ParseWhole(negative: bool, digits: string) returns (r: Result<Value>)
      requires Valid() && All(digits, IsDigit)
      modifies this`pos
      ensures Valid()
      ensures match WholeNumber(negative, digits, old(Rest())) {
                case Ok(n) => r == Ok(n.0) && Rest() == n.1
                case Err(e) => r == Err(e)
              }
    {
      if pos < |src| && (src[pos] == 'e' || src[pos] == 'E') {
        var e := ParseExponent(digits != "");
        return Err(e);
      }
      if digits == "" {
        return Err(Malformed);
      }
      r := WholeValue(negative, digits);
    }

    /** The point and the digits behind it. */
    method ParseFraction(negative: bool, digits: string) returns (r: Result<Value>)
      requires Valid() && StartsWith(Rest(), '.') && All(digits, IsDigit)
      modifies this`pos
      ensures Valid()
      ensures match FractionNumber(negative, digits, old(Rest())[1..]) {
                case Ok(n) => r == Ok(n.0) && Rest() == n.1
                case Err(e) => r == Err(e)
              }
    {
      pos := pos + 1;
      var fraction := TakeRun(IsDigit);
      r := AfterFraction(negative, digits, fraction);
    }

    /** What stands behind the digits of a fraction: an exponent, or the end of the
        literal. */
    method AfterFraction(negative: bool, digits: string, fraction: string) returns (r: Result<Value>)
      requires Valid() && All(digits, IsDigit) && All(fraction, IsDigit)
      modifies this`pos
      ensures Valid()
      ensures var mantissa := digits != "" || fraction != "";
        if StartsExponent(old(Rest())) then r == Err(ExponentError(mantissa, old(Rest())))
        else Rest() == old(Rest())
             && r == if mantissa then FractionalValue(negative, digits, fraction) else Err(Malformed)
    {
      if pos < |src| && (src[pos] == 'e' || src[pos] == 'E') {
        var e := ParseExponent(digits != "" || fraction != "");
        return Err(e);
      }
      if digits == "" && fraction == "" {
        return Err(Malformed);
      }
      r := FractionalValue(negative, digits, fraction);
    }

    method ParseValue() returns (r: Result<Value>)
      requires Valid()
      modifies this`pos
      ensures Valid()
      ensures match ReadValue(old(Rest())) {
                case Ok(v) => r == Ok(v.0) && Rest() == v.1
                case Err(e) => r == Err(e)
              }
      decreases |src| - pos, 1
    {
      SkipWS();
      if pos >= |src| {
        return Err(Malformed);
      }
      var c := src[pos];
      if c == '{' {
        r := ParseTable();
      } else if c == '"' || c == '\'' {
        var s := ParseShortString();
        r := if s.Ok? then Ok(Str(s.value)) else Err(s.error);
      } else if c == '[' {
        var s, ok := TryParseLongBracket();
        if s.Err? {
          return Err(s.error);
        }
        if !ok {
          return Err(Malformed);
        }
        return Ok(Str(s.value));
      } else if c == '-' || IsDigit(c) {
        r := ParseNumber();
      } else if IsIdentStart(c) {
        var ident := ParseIdent();
        if ident == "true" {
          return Ok(Bool(true));
        }
        if ident == "false" {
          return Ok(Bool(false));
        }
        return Err(Malformed);
      } else {
        return Err(Malformed);
      }
    }

    /** The value behind an "=". */
    method ParseAssigned() returns (r: Result<Value>)
      requires Valid()
      modifies this`pos
      ensures Valid()
      ensures match ReadAssigned(old(Rest())) {
                case Ok(v) => r == Ok(v.0) && Rest() == v.1
                case Err(e) => r == Err(e)
              }
      decreases |src| - pos, 1
    {
      SkipWS();
      var ok := Consume('=');
      if !ok {
        return Err(Malformed);
      }
      SkipWS();
      r := ParseValue();
    }

    /** One pass through parseTable's entry switch. */
    method ParseEntry(autoIdx: int) returns (r: Result<Entry>, next: int)
      requires Valid()
      modifies this`pos
      ensures Valid()
      ensures match ReadEntry(old(Rest()), autoIdx) {
                case Ok(e) => r == Ok(e.0) && next == e.1 && Rest() == e.2
                case Err(e) => r == Err(e)
              }
      decreases |src| - pos, 2
    {
      next := autoIdx;
      if Peek() == '[' {
        pos := pos + 1;
        SkipWS();
        var key := ParseValue();
        if key.Err? {
          return Err(key.error), next;
        }
        SkipWS();
        var ok := Consume(']');
        if !ok {
          return Err(Malformed), next;
        }
        var v := ParseAssigned();
        r := if v.Ok? then Ok(Entry(key.value, v.value)) else Err(v.error);
        return;
      }
      var isKey := IsIdentStart(Peek());
      if isKey {
        isKey := IdentKeyLookahead();
      }
      if isKey {
        var name := ParseIdent();
        var v := ParseAssigned();
        r := if v.Ok? then Ok(Entry(Str(name), v.value)) else Err(v.error);
      } else {
        var v := ParseValue();
        r := if v.Ok? then Ok(Entry(Int(autoIdx), v.value)) else Err(v.error);
        next := autoIdx + 1;
      }
    }

    /** One top-level assignment and the space behind it. */
    method ParseAssignment() returns (key: string, r: Result<Value>)
      requires Valid() && pos < |src|
      modifies this`pos
      ensures Valid() && (r.Ok? ==> pos > old(pos))
      ensures forall out ::
                ReadFile(old(Rest()), out)
                == if r.Ok? then ReadFile(Rest(), out[key := r.value]) else Err(r.error)
    {
      ghost var t := Rest();
      if !IsIdentStart(Peek()) {
        return "", Err(Malformed);
      }
      key := ParseIdent();
      r := ParseAssigned();
      if r.Ok? {
        SkipWS();
      }
    }

    method ParseTable() returns (r: Result<Value>)
      requires Valid() && StartsWith(Rest(), '{')
      modifies this`pos
      ensures Valid()
      ensures match ReadEntries(old(Rest())[1..], [], 1) {
                case Ok(es) => r == Collapse(es.0) && Rest() == es.1
                case Err(e) => r == Err(e)
              }
      decreases |src| - pos, 0
    {
      var _ := Consume('{');
      var entries: seq<Entry> := [];
      var autoIdx := 1;
      ghost var want := ReadEntries(Rest(), [], 1);
      while true
        invariant Valid() && old(pos) < pos
        invariant want == ReadEntries(Rest(), entries, autoIdx)
        decreases |src| - pos
      {
        ghost var t := Rest();
        SkipWS();
        var closed := Consume('}');
        if closed {
          break;
        }
        var ent, next := ParseEntry(autoIdx);
        if ent.Err? {
          return Err(ent.error);
        }
        entries := entries + [ent.value];
        autoIdx := next;
        SkipWS();
        var comma := Consume(',');
        if comma {
          continue;
        }
        var semicolon := Consume(';');
        if semicolon {
          continue;
        }
        SkipWS();
        closed := Consume('}');
        if closed {
          break;
        }
        return Err(Malformed);
      }
      r := EntriesToValue(entries);
    }
  }

  /** The three flags entriesToValue collects in its first loop. */
  method Classify(entries: seq<Entry>) returns (hasNum: bool, hasStr: bool, denseArray: bool)
    ensures hasNum <==> HasNum(entries)
    ensures hasStr <==> HasStr(entries)
    ensures denseArray <==> Dense(entries)
  {
    hasNum, hasStr, denseArray := false, false, true;
    var maxIdx := 0;
    for i := 0 to |entries|
      invariant hasNum <==> exists j :: 0 <= j < i && entries[j].key.Int?
      invariant hasStr <==> exists j :: 0 <= j < i && entries[j].key.Str?
      invariant denseArray ==> maxIdx == i
      invariant denseArray <==> forall j :: 0 <= j < i ==> entries[j].key == Int(j + 1)
    {
      match entries[i].key {
        case Int(k) =>
          hasNum := true;
          if k != maxIdx + 1 {
            denseArray := false;
          }
          maxIdx := maxIdx + 1;
        case Str(_) =>
          hasStr := true;
          denseArray := false;
        case _ =>
          denseArray := false;
      }
    }
  }

  /** The entry slice as a dense array, a mixed table or a string-keyed map. */
  method EntriesToValue(entries: seq<Entry>) returns (r: Result<Value>)
    ensures r == Collapse(entries)
  {
    var hasNum, hasStr, denseArray := Classify(entries);
    assert entries[..|entries|] == entries;
    if hasNum && !hasStr && denseArray {
      var arr := map[];
      for i := 0 to |entries|
        invariant arr == NumPart(entries[..i])
      {
        assert entries[..i + 1][..i] == entries[..i];
        arr := arr[i + 1 := entries[i].value];
      }
      return Ok(Table(arr, map[]));
    }
    if hasNum && hasStr {
      r := MixedTable(entries);
    } else {
      r := StringKeyed(entries);
    }
  }

  method MixedTable(entries: seq<Entry>) returns (r: Result<Value>)
    requires HasNum(entries) && HasStr(entries)
    ensures r == if KeysKnown(entries) then Ok(Table(NumPart(entries), StrPart(entries)))
                 else Err(UnexpectedKey)
  {
    var num: map<int, Value>, str: map<string, Value> := map[], map[];
    for i := 0 to |entries|
      invariant forall j :: 0 <= j < i ==> MixedKey(entries[j].key)
      invariant num == NumPart(entries[..i]) && str == StrPart(entries[..i])
    {
      assert entries[..i + 1][..i] == entries[..i];
      var e := entries[i];
      match e.key {
        case Str(k) => str := str[k := e.value];
        case Int(k) => num := num[k := e.value];
        case _ => return Err(UnexpectedKey);
      }
    }
    assert entries[..|entries|] == entries;
    return Ok(Table(num, str));
  }

  lemma TextKeyedStep(entries: seq<Entry>, i: nat)
    requires i < |entries| && PrintableKey(entries[i].key)
    ensures TextKeyed(entries[..i + 1]) == TextKeyed(entries[..i])[TextKey(entries[i].key) := entries[i].value]
  {
    assert entries[..i + 1][..i] == entries[..i];
  }

  method StringKeyed(entries: seq<Entry>) returns (r: Result<Value>)
    requires !(HasNum(entries) && HasStr(entries))
    ensures r == if KeysKnown(entries) then Ok(Table(map[], TextKeyed(entries)))
                 else Err(UnexpectedKey)
  {
    var m: map<string, Value> := map[];
    for i := 0 to |entries|
      invariant forall j :: 0 <= j < i ==> PrintableKey(entries[j].key)
      invariant m == TextKeyed(entries[..i])
    {
      var e := entries[i];
      if !PrintableKey(e.key) {
        return Err(UnexpectedKey);
      }
      TextKeyedStep(entries, i);
      m := m[TextKey(e.key) := e.value];
    }
    assert entries[..|entries|] == entries;
    return Ok(Table(map[], m));
  }

  /** manif.Parse */
  method Parse(b: string) returns (r: Result<Value>)
    ensures r == Read(b)
  {
    var p := new Parser(b);
    p.SkipWS();
    var out: map<string, Value> := map[];
    while p.pos < |p.src|
      invariant p.Valid() && fresh(p) && p.src == b
      invariant Read(b) == ReadFile(p.Rest(), out)
      decreases |p.src| - p.pos
    {
      var key, v := p.ParseAssignment();
      if v.Err? {
        return Err(v.error);
      }
      out := out[key := v.value];
    }
    return Ok(Table(map[], out));
  }
}
