/** manif/writer.go: a buffer with a sticky error, and the loops that fill it,
    proved against the text functions of LuaText. */
module LuaWriter {
  import opened Text
  import opened LuaValue
  import opened LuaText
  import SortedKeys

  /** bufWriter: once the io.Writer below has failed nothing more is written. */
  class BufWriter {
    var written: string
    var err: bool

    constructor ()
      ensures written == "" && !err
    {
      written := "";
      err := false;
    }

    /** Everything written since the state (w, e) is t, unless a write failed. */
    ghost predicate Appended(w: string, e: bool, t: string)
      reads this
    {
      if e then err && written == w else !err ==> written == w + t
    }

    /** bufWriter.write; the io.Writer may fail at any call. */
    method WriteText(s: string)
      modifies this
      ensures Appended(old(written), old(err), s)
    {
      if err {
        return;
      }
      if * {
        err := true;
      } else {
        written := written + s;
      }
    }
  }

  method LuaQ(s: string) returns (r: string)
    ensures r == Quoted(s)
  {
    var b: string := "\"";
    for i := 0 to |s|
      invariant b + QuotedBody(s[i..]) == "\"" + QuotedBody(s)
    {
      var c := s[i];
      var nextIsDigit := i + 1 < |s| && '0' <= s[i + 1] <= '9';
      ghost var was := b;
      if c == '"' || c == '\\' {
        b := b + ['\\', c];
      } else if c == '\n' {
        b := b + ['\\', '\n'];
      } else if c as int < 0x20 || c as int == 0x7F {
        b := b + ['\\'];
        if nextIsDigit {
          b := b + ThreeDigits(c as int);
        } else {
          b := b + Decimal(c as int);
        }
        Regroup(was, ['\\'], if nextIsDigit then ThreeDigits(c as int) else Decimal(c as int));
      } else {
        b := b + [c];
      }
      assert s[i..][1..] == s[i + 1..];
      assert b == was + QuotedChar(c, nextIsDigit);
      Regroup(was, QuotedChar(c, nextIsDigit), QuotedBody(s[i + 1..]));
    }
    assert s[|s|..] == "";
    r := b + "\"";
  }

  /** Tries levels 0, 1, ... and uses the first whose closing bracket is free. */
  method LongBracket(s: string) returns (r: string, equals: nat)
    ensures LeastUsable(s, equals) && equals <= |s|
    ensures r == LongText(s, equals) && equals == LevelFrom(s, 0)
  {
    equals := 0;
    var probe := s + "]";
    while true
      invariant equals <= |s| && forall j: nat :: j < equals ==> !Usable(s, j)
      invariant LevelFrom(s, 0) == LevelFrom(s, equals)
      decreases |s| - equals
    {
      var closeBracket := CloseBracket(equals);
      if !Contains(probe, closeBracket) {
        r := OpenBracket(equals) + "\n" + s + closeBracket;
        return;
      }
      LongLevelFails(s);
      equals := equals + 1;
    }
  }

  method StringText(s: string) returns (r: string)
    ensures r == StrText(s)
  {
    if '\n' in s || '\r' in s {
      var t, _ := LongBracket(s);
      return t;
    }
    r := LuaQ(s);
  }

  method WriteString(out: BufWriter, s: string)
    modifies out
    ensures out.Appended(old(out.written), old(out.err), StrText(s))
  {
    var t := StringText(s);
    out.WriteText(t);
  }

  method WriteIndent(out: BufWriter, n: nat)
    modifies out
    ensures out.Appended(old(out.written), old(out.err), Indent(n))
  {
    ghost var w, e := out.written, out.err;
    var i := 0;
    while i < n
      invariant i <= n
      invariant e ==> out.err && out.written == w
      invariant !e && !out.err ==> w + Indent(n) == out.written + Indent(n - i)
    {
      ghost var before := out.written;
      out.WriteText("   ");
      i := i + 1;
      Regroup(before, "   ", Indent(n - i));
    }
  }

  method WriteTableKeyAssignment(out: BufWriter, k: string)
    modifies out
    ensures out.Appended(old(out.written), old(out.err), KeyText(Str(k)))
  {
    ghost var w := out.written;
    if IsPlainKey(k) {
      out.WriteText(k);
      out.WriteText(" = ");
      Regroup(w, k, " = ");
    } else {
      out.WriteText("[");
      WriteString(out, k);
      out.WriteText("]");
      out.WriteText(" = ");
      RegroupFive(w, "[", StrText(k), "]", " = ");
      RegroupFour("[", StrText(k), "]", " = ");
    }
  }

  method WriteValue(out: BufWriter, v: Value, level: nat)
    modifies out
    ensures out.Appended(old(out.written), old(out.err), ValueText(v, level))
    decreases v, 1
  {
    match v {
      case Nil => out.WriteText("nil");
      case Bool(b) => out.WriteText(if b then "true" else "false");
      case Int(n) => out.WriteText(IntText(n));
      case Dec(u) => out.WriteText(DecText(u));
      case Str(s) => WriteString(out, s);
      case Table(_, _) => WriteTable(out, v, level + 1);
    }
  }

  /** writeTable's separator and indentation in front of an entry. */
  method WriteSep(out: BufWriter, sep: Sep, level: nat)
    modifies out
    ensures out.Appended(old(out.written), old(out.err), SepText(sep, level))
  {
    ghost var w := out.written;
    match sep {
      case First =>
        out.WriteText("\n");
        WriteIndent(out, level);
        Regroup(w, "\n", Indent(level));
      case AfterNumber =>
        out.WriteText(", ");
      case AfterOther =>
        out.WriteText(",\n");
        WriteIndent(out, level);
        Regroup(w, ",\n", Indent(level));
    }
  }

  /** writeTable's emit closure. */
  method EmitEntry(out: BufWriter, e: Entry, sep: Sep, level: nat) returns (next: Sep)
    requires e.key.Int? || e.key.Str?
    modifies out
    ensures out.Appended(old(out.written), old(out.err),
                         SepText(sep, level) + KeyText(e.key) + ValueText(e.value, level))
    ensures next == SepAfter(e.value)
    decreases e.value, 2
  {
    ghost var w := out.written;
    WriteSep(out, sep, level);
    if e.key.Str? {
      WriteTableKeyAssignment(out, e.key.s);
    }
    assert !out.err ==> out.written == w + SepText(sep, level) + KeyText(e.key);
    WriteValue(out, e.value, level);
    RegroupFour(w, SepText(sep, level), KeyText(e.key), ValueText(e.value, level));
    Regroup(SepText(sep, level), KeyText(e.key), ValueText(e.value, level));
    next := if e.value.Int? || e.value.Dec? then AfterNumber else AfterOther;
  }

  method WriteTable(out: BufWriter, v: Value, level: nat)
    requires v.Table? && level > 0
    modifies out
    ensures out.Appended(old(out.written), old(out.err), "{" + BodyText(v, Entries(v), First, level))
    decreases v, 0
  {
    ghost var w, e := out.written, out.err;
    var es := Entries(v);
    out.WriteText("{");
    var sep := First;
    var i := 0;
    Regroup(w, "{", BodyText(v, es, First, level));
    while i < |es|
      invariant i <= |es|
      invariant e ==> out.err && out.written == w
      invariant !e && !out.err ==>
        w + ("{" + BodyText(v, es, First, level)) == out.written + BodyText(v, es[i..], sep, level)
    {
      ghost var before := out.written;
      assert es[i..][1..] == es[i + 1..] && es[i] in es;
      ghost var head := SepText(sep, level) + KeyText(es[i].key) + ValueText(es[i].value, level);
      assert BodyText(v, es[i..], sep, level)
          == head + BodyText(v, es[i + 1..], SepAfter(es[i].value), level);
      sep := EmitEntry(out, es[i], sep, level);
      i := i + 1;
      Regroup(before, head, BodyText(v, es[i..], sep, level));
    }
    WriteClose(out, sep, level);
  }

  method WriteClose(out: BufWriter, sep: Sep, level: nat)
    requires level > 0
    modifies out
    ensures out.Appended(old(out.written), old(out.err), CloseText(sep, level))
  {
    ghost var w := out.written;
    if sep != First {
      out.WriteText("\n");
      WriteIndent(out, level - 1);
      Regroup(w, "\n", Indent(level - 1));
    }
    out.WriteText("}");
    if sep != First {
      Regroup(w, "\n" + Indent(level - 1), "}");
    }
  }

  lemma WritableEntries(v: Value)
    requires v.Table? && v.num == map[]
    ensures forall e :: e in RecEntries(v.rec) ==> e.key.Str?
    ensures Writable(v) <==> forall e :: e in RecEntries(v.rec) ==> IsPlainKey(e.key.s)
  {
    var es, ks := RecEntries(v.rec), SortedKeys.Strings(v.rec.Keys);
    forall e | e in es ensures e.key.Str? && e.key.s in v.rec {
      RecEntriesFrom(v.rec, e);
    }
    forall k | k in v.rec ensures exists e :: e in es && e.key == Str(k) {
      assert k in ks;
      var i :| 0 <= i < |ks| && ks[i] == k;
      assert es[i] in es;
    }
  }

  datatype Outcome = Written | NoTable | InvalidTopLevelKey | WriteFailed

  /** How many entries come before the first key that is no plain identifier. */
  function PlainCount(es: seq<Entry>): (n: nat)
    requires forall e :: e in es ==> e.key.Str?
    ensures n <= |es|
    ensures forall j :: 0 <= j < n ==> IsPlainKey(es[j].key.s)
    ensures n < |es| ==> !IsPlainKey(es[n].key.s)
  {
    if es == [] then 0
    else
      assert es[0] in es;
      if IsPlainKey(es[0].key.s) then 1 + PlainCount(es[1..]) else 0
  }

  function RecEntriesOf(v: Value): (es: seq<Entry>)
    requires v.Table?
    ensures forall e :: e in es ==> e.key.Str?
  {
    assert forall e :: e in RecEntries(v.rec) ==> e.key.Str? by {
      forall e | e in RecEntries(v.rec) ensures e.key.Str? { RecEntriesFrom(v.rec, e); }
    }
    RecEntries(v.rec)
  }

  /** The assignments written before a table is refused: none when it has integer keys. */
  function RefusedText(v: Value): string
    requires v.Table?
  {
    if v.num != map[] then "" else AssignmentsText(RecEntriesOf(v)[..PlainCount(RecEntriesOf(v))])
  }

  /** manif.Write: the file's text, or the text up to the first key that is no plain
      identifier. */
  method Write(out: BufWriter, v: Value) returns (r: Outcome)
    requires !out.err
    modifies out
    ensures r == NoTable <==> !v.Table?
    ensures r == NoTable ==> out.written == old(out.written)
    ensures r == InvalidTopLevelKey <==> v.Table? && !Writable(v)
    ensures r == InvalidTopLevelKey && !out.err ==> out.written == old(out.written) + RefusedText(v)
    ensures r == Written ==> out.written == old(out.written) + FileText(v)
    ensures r == WriteFailed ==> out.err
  {
    if !v.Table? {
      return NoTable;
    }
    if v.num != map[] {
      return InvalidTopLevelKey;
    }
    WritableEntries(v);
    r := WriteAssignments(out, RecEntriesOf(v));
  }

  method WriteAssignments(out: BufWriter, es: seq<Entry>) returns (r: Outcome)
    requires forall e :: e in es ==> e.key.Str?
    requires !out.err
    modifies out
    ensures r != NoTable && (r == InvalidTopLevelKey <==> PlainCount(es) < |es|)
    ensures r == InvalidTopLevelKey && !out.err ==>
      out.written == old(out.written) + AssignmentsText(es[..PlainCount(es)])
    ensures r == Written ==> out.written == old(out.written) + AssignmentsText(es)
    ensures r == WriteFailed ==> out.err
  {
    ghost var w, n := out.written, PlainCount(es);
    var i := 0;
    assert es[0..n] == es[..n];
    while i < |es|
      invariant i <= n
      invariant !out.err ==> w + AssignmentsText(es[..n]) == out.written + AssignmentsText(es[i..n])
    {
      var e := es[i];
      assert e in es;
      if !IsPlainKey(e.key.s) {
        return InvalidTopLevelKey;
      }
      assert es[i..n][0] == e && es[i..n][1..] == es[i + 1..n];
      ghost var before := out.written;
      WriteAssignment(out, e.key.s, e.value);
      i := i + 1;
      Regroup(before, e.key.s + " = " + ValueText(e.value, 0) + "\n", AssignmentsText(es[i..n]));
    }
    assert es[..n] == es;
    r := if out.err then WriteFailed else Written;
  }

  method WriteAssignment(out: BufWriter, k: string, v: Value)
    modifies out
    ensures out.Appended(old(out.written), old(out.err), k + " = " + ValueText(v, 0) + "\n")
  {
    ghost var w := out.written;
    out.WriteText(k);
    out.WriteText(" = ");
    WriteValue(out, v, 0);
    out.WriteText("\n");
    RegroupFive(w, k, " = ", ValueText(v, 0), "\n");
    RegroupFour(k, " = ", ValueText(v, 0), "\n");
  }
}
