/** The texts on which manif.Parse panics. */
module LuaPanics {
  import opened Text
  import opened LuaValue
  import opened LuaText
  import opened LuaGrammar
  import opened LuaRoundTrip

  lemma {:induction false} EscapesDoNot(quote: char, t: string, acc: string)
    ensures ReadShortBody(quote, t, acc) != Err(UnexpectedKey)
    decreases |t|
  {
    if t != [] && t[0] != quote && t[0] != '\n' {
      if t[0] != '\\' {
        EscapesDoNot(quote, t[1..], acc + [t[0]]);
      } else if ReadEscape(t[1..]).Ok? {
        var e := ReadEscape(t[1..]).value;
        EscapesDoNot(quote, e.1, acc + [e.0]);
      }
    }
  }

  lemma {:induction false} TablePanics(t: string)
    ensures
      var r, es := ReadValue("{" + t), ReadEntries(t, [], 1);
      r == Err(UnexpectedKey) <==> if es.Err? then es.error == UnexpectedKey else OddKey(es.value.0)
  {
    var u := "{" + t;
    assert SkipSpace(u) == u && u[1..] == t;
    var es := ReadEntries(t, [], 1);
    if es.Ok? { CollapsePanics(es.value.0); }
  }

  lemma {:induction false} LongDoesNot(t: string)
    ensures ReadLong(t) != Err(UnexpectedKey)
  {
  }

  lemma {:induction false} WholeDoesNot(negative: bool, digits: string, t: string)
    requires All(digits, IsDigit)
    ensures WholeNumber(negative, digits, t) != Err(UnexpectedKey)
  {
  }

  lemma {:induction false} FractionDoesNot(negative: bool, digits: string, t: string)
    requires All(digits, IsDigit)
    ensures FractionNumber(negative, digits, t) != Err(UnexpectedKey)
  {
  }

  lemma {:induction false} NumberDoesNot(t: string)
    requires t != [] && (t[0] == '-' || IsDigit(t[0]))
    ensures ReadNumber(t) != Err(UnexpectedKey)
  {
    var negative := t[0] == '-';
    var u := if negative then t[1..] else t;
    var digits, rest := u[..Run(u, IsDigit)], u[Run(u, IsDigit)..];
    if StartsWith(rest, '.') {
      FractionDoesNot(negative, digits, rest[1..]);
    } else {
      WholeDoesNot(negative, digits, rest);
    }
  }

  lemma {:induction false} OthersDoNot(t: string)
    requires !StartsWith(SkipSpace(t), '{')
    ensures ReadValue(t) != Err(UnexpectedKey)
  {
    var u := SkipSpace(t);
    if u == [] {
    } else if u[0] == '"' || u[0] == '\'' {
      EscapesDoNot(u[0], u[1..], "");
    } else if u[0] == '[' {
      LongDoesNot(u);
    } else if u[0] == '-' || IsDigit(u[0]) {
      NumberDoesNot(u);
    }
  }

  /** `{[true] = 1,}` and what follows it. */
  lemma {:induction false} BooleanKey(rest: string)
    ensures ReadEntry("[" + ("true" + ("] = " + ("1," + rest))), 1) == Ok((Entry(Bool(true), Int(1)), 1, "," + rest))
  {
    var text := "1," + rest;
    var behind := "] = " + text;
    assert IntText(1) == "1" && text == IntText(1) + ("," + rest);
    IntTextBack(1, "," + rest);
    ReadDigits(text);
    BehindKey(text);
    ReadWord("true", behind);
    var u := "true" + behind;
    assert SkipSpace(u) == u && ("[" + u)[1..] == u;
  }

  lemma {:induction false} OneEntry(t: string, e: Entry, rest: string)
    requires t != [] && SkipSpace(t) == t && t[0] != '}' && ReadEntry(t, 1) == Ok((e, 1, "," + ("}" + rest)))
    ensures ReadEntries(t, [], 1) == Ok(([e], rest))
  {
    var brace := "}" + rest;
    CommaStep(brace, [e], 1);
    assert SkipSpace(brace) == brace && brace[1..] == rest && [] + [e] == [e];
  }

  lemma {:induction false} BooleanTable(rest: string)
    ensures ReadValue("{" + ("[" + ("true" + ("] = " + ("1," + ("}" + rest)))))) == Err(UnexpectedKey)
  {
    var t := "[" + ("true" + ("] = " + ("1," + ("}" + rest))));
    var e := Entry(Bool(true), Int(1));
    BooleanKey("}" + rest);
    OneEntry(t, e, rest);
    assert !PrintableKey([e][0].key);
    TablePanics(t);
  }

  lemma {:induction false} AssignmentPanics(t: string, text: string)
    requires t == "x" + (" = " + text) && text != [] && SkipSpace(text) == text
    requires ReadValue(text) == Err(UnexpectedKey)
    ensures Read(t) == Err(UnexpectedKey)
  {
    var behind := " = " + text;
    RunAppend("x", behind, IsIdentPart);
    AssignBack(text);
    assert SkipSpace(t) == t && t[..1] == "x" && t[1..] == behind;
  }

  /** A text that starts with `x = {[true] = 1,}` makes Parse panic, where its comment
      promises an error. */
  lemma {:induction false} BooleanKeyPanics(rest: string)
    ensures Read("x" + (" = " + ("{" + ("[" + ("true" + ("] = " + ("1," + ("}" + rest)))))))) == Err(UnexpectedKey)
  {
    var text := "{" + ("[" + ("true" + ("] = " + ("1," + ("}" + rest)))));
    BooleanTable(rest);
    assert SkipSpace(text) == text;
    AssignmentPanics("x" + (" = " + text), text);
  }

  // ---- the tables of a text --------------------------------------------------

  /** What stands for a table that is read without being collapsed. */
  const SOME_TABLE := Table(map[], map[])

  /** The entries of every table closed so far, in closing order, and what was read. */
  datatype Trace<T> = Trace(closed: seq<seq<Entry>>, result: Result<T>)

  /** A value without any collapsing. */
  function TraceValue(t: string, closed: seq<seq<Entry>>): (r: Trace<(Value, string)>)
    ensures r.result.Ok? ==> |r.result.value.1| < |t|
    ensures closed <= r.closed
    decreases |t|, 0
  {
    var u := SkipSpace(t);
    if !StartsWith(u, '{') then Trace(closed, ReadValue(t))
    else
      var es := TraceEntries(u[1..], [], 1, closed);
      if es.result.Err? then Trace(es.closed, Err(es.result.error))
      else Trace(es.closed + [es.result.value.0], Ok((SOME_TABLE, es.result.value.1)))
  }

  function TraceEntries(t: string, acc: seq<Entry>, auto: int, closed: seq<seq<Entry>>)
    : (r: Trace<(seq<Entry>, string)>)
    ensures r.result.Ok? ==> |r.result.value.1| < |t|
    ensures closed <= r.closed
    decreases |t|, 3
  {
    var u := SkipSpace(t);
    if StartsWith(u, '}') then Trace(closed, Ok((acc, u[1..])))
    else
      var e := TraceEntry(u, auto, closed);
      if e.result.Err? then Trace(e.closed, Err(e.result.error))
      else TraceAfter(e.result.value.2, acc + [e.result.value.0], e.result.value.1, e.closed)
  }

  function TraceAfter(t: string, acc: seq<Entry>, auto: int, closed: seq<seq<Entry>>)
    : (r: Trace<(seq<Entry>, string)>)
    ensures r.result.Ok? ==> |r.result.value.1| < |t|
    ensures closed <= r.closed
    decreases |t|, 4
  {
    var u := SkipSpace(t);
    if StartsWith(u, ',') || StartsWith(u, ';') then TraceEntries(u[1..], acc, auto, closed)
    else if StartsWith(SkipSpace(u), '}') then Trace(closed, Ok((acc, SkipSpace(u)[1..])))
    else Trace(closed, Err(Malformed))
  }

  function TraceEntry(t: string, auto: int, closed: seq<seq<Entry>>): (r: Trace<(Entry, int, string)>)
    ensures r.result.Ok? ==> |r.result.value.2| < |t|
    ensures closed <= r.closed
    decreases |t|, 2
  {
    if StartsWith(t, '[') then TraceKeyed(t, auto, closed)
    else if t != [] && IsIdentStart(t[0]) && KeyAhead(t) then
      var n := Run(t, IsIdentPart);
      var v := TraceAssigned(t[n..], closed);
      if v.result.Err? then Trace(v.closed, Err(v.result.error))
      else Trace(v.closed, Ok((Entry(Str(t[..n]), v.result.value.0), auto, v.result.value.1)))
    else
      var v := TraceValue(t, closed);
      if v.result.Err? then Trace(v.closed, Err(v.result.error))
      else Trace(v.closed, Ok((Entry(Int(auto), v.result.value.0), auto + 1, v.result.value.1)))
  }

  function TraceKeyed(t: string, auto: int, closed: seq<seq<Entry>>): (r: Trace<(Entry, int, string)>)
    requires StartsWith(t, '[')
    ensures r.result.Ok? ==> |r.result.value.2| < |t|
    ensures closed <= r.closed
    decreases |t|, 1
  {
    var k := TraceValue(SkipSpace(t[1..]), closed);
    if k.result.Err? then Trace(k.closed, Err(k.result.error))
    else
      var u := SkipSpace(k.result.value.1);
      if !StartsWith(u, ']') then Trace(k.closed, Err(Malformed))
      else
        var v := TraceAssigned(u[1..], k.closed);
        if v.result.Err? then Trace(v.closed, Err(v.result.error))
        else Trace(v.closed, Ok((Entry(k.result.value.0, v.result.value.0), auto, v.result.value.1)))
  }

  function TraceAssigned(t: string, closed: seq<seq<Entry>>): (r: Trace<(Value, string)>)
    ensures r.result.Ok? ==> |r.result.value.1| < |t|
    ensures closed <= r.closed
    decreases |t|, 1
  {
    var u := SkipSpace(t);
    if !StartsWith(u, '=') then Trace(closed, Err(Malformed)) else TraceValue(SkipSpace(u[1..]), closed)
  }

  function TraceFile(t: string, closed: seq<seq<Entry>>): (r: Trace<()>)
    ensures closed <= r.closed
    decreases |t|
  {
    if t == [] then Trace(closed, Ok(()))
    else if !IsIdentStart(t[0]) then Trace(closed, Err(Malformed))
    else
      var v := TraceAssigned(t[Run(t, IsIdentPart)..], closed);
      if v.result.Err? then Trace(v.closed, Err(v.result.error))
      else TraceFile(SkipSpace(v.result.value.1), v.closed)
  }

  /** The tables that a text closes before its first error, and that error. */
  function TraceText(t: string): Trace<()> {
    TraceFile(SkipSpace(t), [])
  }

  /** No closed table has an odd key. */
  predicate Clean(closed: seq<seq<Entry>>) {
    forall i :: 0 <= i < |closed| ==> !OddKey(closed[i])
  }

  predicate Alike(v: Value, w: Value) {
    v == w || (v.Table? && w.Table?)
  }

  predicate AlikeEntries(es: seq<Entry>, fs: seq<Entry>) {
    |es| == |fs| && forall i :: 0 <= i < |es| ==> Alike(es[i].key, fs[i].key)
  }

  lemma {:induction false} AlikeOdd(es: seq<Entry>, fs: seq<Entry>)
    requires AlikeEntries(es, fs)
    ensures OddKey(es) <==> OddKey(fs)
  {
    assert HasNum(es) <==> HasNum(fs) by {
      if HasNum(es) { var i :| 0 <= i < |es| && es[i].key.Int?; assert fs[i].key.Int?; }
      if HasNum(fs) { var i :| 0 <= i < |fs| && fs[i].key.Int?; assert es[i].key.Int?; }
    }
    assert HasStr(es) <==> HasStr(fs) by {
      if HasStr(es) { var i :| 0 <= i < |es| && es[i].key.Str?; assert fs[i].key.Str?; }
      if HasStr(fs) { var i :| 0 <= i < |fs| && fs[i].key.Str?; assert es[i].key.Str?; }
    }
    forall i | 0 <= i < |es|
      ensures PrintableKey(es[i].key) <==> PrintableKey(fs[i].key)
      ensures es[i].key.Dec? <==> fs[i].key.Dec?
    {
    }
  }

  /** Reading and tracing end alike: with a panic where a table with an odd key was closed,
      and with the same error or behind the same text where none was. */
  predicate SameEnd<S, T>(r: Result<S>, trace: Trace<T>) {
    if !Clean(trace.closed) then r == Err(UnexpectedKey)
    else if r.Err? then trace.result == Err(r.error) && r.error != UnexpectedKey
    else trace.result.Ok?
  }

  predicate SameValue(r: Result<(Value, string)>, trace: Trace<(Value, string)>) {
    && SameEnd(r, trace)
    && (r.Ok? ==> Alike(r.value.0, trace.result.value.0) && r.value.1 == trace.result.value.1)
  }

  predicate SameEntries(r: Result<(seq<Entry>, string)>, trace: Trace<(seq<Entry>, string)>) {
    && SameEnd(r, trace)
    && (r.Ok? ==> AlikeEntries(r.value.0, trace.result.value.0) && r.value.1 == trace.result.value.1)
  }

  predicate SameEntry(r: Result<(Entry, int, string)>, trace: Trace<(Entry, int, string)>) {
    && SameEnd(r, trace)
    && (r.Ok? ==>
          && Alike(r.value.0.key, trace.result.value.0.key)
          && r.value.1 == trace.result.value.1 && r.value.2 == trace.result.value.2)
  }

  lemma {:induction false} CleanBefore(closed: seq<seq<Entry>>, more: seq<seq<Entry>>)
    requires closed <= more && Clean(more)
    ensures Clean(closed)
  {
    forall i | 0 <= i < |closed| ensures !OddKey(closed[i]) {
      assert closed[i] == more[i];
    }
  }

  lemma {:induction false} CleanOneMore(closed: seq<seq<Entry>>, es: seq<Entry>)
    ensures Clean(closed + [es]) <==> Clean(closed) && !OddKey(es)
  {
    var more := closed + [es];
    assert more[|closed|] == es;
    if Clean(more) { CleanBefore(closed, more); }
  }

  lemma {:induction false} TracedTable(t: string, closed: seq<seq<Entry>>)
    requires StartsWith(SkipSpace(t), '{')
    requires SameEntries(ReadEntries(SkipSpace(t)[1..], [], 1), TraceEntries(SkipSpace(t)[1..], [], 1, closed))
    ensures SameValue(ReadValue(t), TraceValue(t, closed))
  {
    var u := SkipSpace(t);
    var r, es := ReadEntries(u[1..], [], 1), TraceEntries(u[1..], [], 1, closed);
    if es.result.Ok? { CleanOneMore(es.closed, es.result.value.0); }
    if r.Ok? {
      AlikeOdd(r.value.0, es.result.value.0);
      CollapsePanics(r.value.0);
    }
  }

  lemma {:induction false} TracedValue(t: string, closed: seq<seq<Entry>>)
    requires Clean(closed)
    ensures SameValue(ReadValue(t), TraceValue(t, closed))
    decreases |t|, 0
  {
    if StartsWith(SkipSpace(t), '{') {
      TracedEntries(SkipSpace(t)[1..], [], [], 1, closed);
      TracedTable(t, closed);
    } else {
      OthersDoNot(t);
    }
  }

  lemma {:induction false} TracedEntries(t: string, acc: seq<Entry>, traced: seq<Entry>, auto: int,
                                         closed: seq<seq<Entry>>)
    requires Clean(closed) && AlikeEntries(acc, traced)
    ensures SameEntries(ReadEntries(t, acc, auto), TraceEntries(t, traced, auto, closed))
    decreases |t|, 3
  {
    var u := SkipSpace(t);
    if !StartsWith(u, '}') {
      TracedEntry(u, auto, closed);
      var e := TraceEntry(u, auto, closed);
      if Clean(e.closed) {
        if e.result.Ok? {
          var r := ReadEntry(u, auto).value;
          TracedAfter(r.2, acc + [r.0], traced + [e.result.value.0], r.1, e.closed);
        }
      } else if e.result.Ok? {
        StaysUnclean(e.result.value.2, traced + [e.result.value.0], e.result.value.1, e.closed);
      }
    }
  }

  lemma {:induction false} StaysUnclean(t: string, acc: seq<Entry>, auto: int, closed: seq<seq<Entry>>)
    requires !Clean(closed)
    ensures !Clean(TraceAfter(t, acc, auto, closed).closed)
  {
    if Clean(TraceAfter(t, acc, auto, closed).closed) {
      CleanBefore(closed, TraceAfter(t, acc, auto, closed).closed);
    }
  }

  lemma {:induction false} TracedAfter(t: string, acc: seq<Entry>, traced: seq<Entry>, auto: int,
                                       closed: seq<seq<Entry>>)
    requires Clean(closed) && AlikeEntries(acc, traced)
    ensures SameEntries(AfterEntry(t, acc, auto), TraceAfter(t, traced, auto, closed))
    decreases |t|, 4
  {
    var u := SkipSpace(t);
    if StartsWith(u, ',') || StartsWith(u, ';') { TracedEntries(u[1..], acc, traced, auto, closed); }
  }

  lemma {:induction false} TracedEntry(t: string, auto: int, closed: seq<seq<Entry>>)
    requires Clean(closed)
    ensures SameEntry(ReadEntry(t, auto), TraceEntry(t, auto, closed))
    decreases |t|, 2
  {
    if StartsWith(t, '[') {
      TracedKeyed(t, auto, closed);
    } else if t != [] && IsIdentStart(t[0]) && KeyAhead(t) {
      TracedAssigned(t[Run(t, IsIdentPart)..], closed);
    } else {
      TracedValue(t, closed);
    }
  }

  lemma {:induction false} TracedKeyed(t: string, auto: int, closed: seq<seq<Entry>>)
    requires Clean(closed) && StartsWith(t, '[')
    ensures SameEntry(ReadEntry(t, auto), TraceKeyed(t, auto, closed))
    decreases |t|, 1
  {
    TracedValue(SkipSpace(t[1..]), closed);
    var k := TraceValue(SkipSpace(t[1..]), closed);
    if k.result.Ok? {
      var u := SkipSpace(k.result.value.1);
      if StartsWith(u, ']') {
        if Clean(k.closed) {
          TracedAssigned(u[1..], k.closed);
        } else if Clean(TraceAssigned(u[1..], k.closed).closed) {
          CleanBefore(k.closed, TraceAssigned(u[1..], k.closed).closed);
        }
      }
    }
  }

  lemma {:induction false} TracedAssigned(t: string, closed: seq<seq<Entry>>)
    requires Clean(closed)
    ensures SameValue(ReadAssigned(t), TraceAssigned(t, closed))
    decreases |t|, 1
  {
    var u := SkipSpace(t);
    if StartsWith(u, '=') { TracedValue(SkipSpace(u[1..]), closed); }
  }

  lemma {:induction false} TracedFile(t: string, out: map<string, Value>, closed: seq<seq<Entry>>)
    requires Clean(closed)
    ensures SameEnd(ReadFile(t, out), TraceFile(t, closed))
    decreases |t|
  {
    if t != [] && IsIdentStart(t[0]) {
      var n := Run(t, IsIdentPart);
      TracedAssigned(t[n..], closed);
      var r, v := ReadAssigned(t[n..]), TraceAssigned(t[n..], closed);
      if r.Ok? {
        TracedFile(SkipSpace(r.value.1), out[t[..n] := r.value.0], v.closed);
      } else if v.result.Ok? && Clean(TraceFile(t, closed).closed) {
        CleanBefore(v.closed, TraceFile(t, closed).closed);
      }
    }
  }

  /** Parse panics if and only if a table with an odd key is closed before the first parse
      error; on other texts the uncollapsed reading ends with the same error, or none. */
  lemma {:induction false} ParsePanics(t: string)
    ensures Read(t) == Err(UnexpectedKey) <==> !Clean(TraceText(t).closed)
    ensures Read(t) != Err(UnexpectedKey) ==>
      if Read(t).Err? then TraceText(t).result == Err(Read(t).error) else TraceText(t).result.Ok?
  {
    TracedFile(SkipSpace(t), map[], []);
  }
}
