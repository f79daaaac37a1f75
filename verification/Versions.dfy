/** deps/version.go: parsed rock versions and their order.  Components are exact
    reals; the source holds float64. */
module Versions {
  import opened Text

  datatype Version = Version(
    raw: string,
    components: seq<real>,
    revision: int,
    hasRevision: bool,
    isSCM: bool,
    isDev: bool)

  // ---- order -------------------------------------------------------------

  /** Missing trailing components count as zero. */
  function At(xs: seq<real>, i: nat): real {
    if i < |xs| then xs[i] else 0.0
  }

  function Max(a: nat, b: nat): nat {
    if a < b then b else a
  }

  function CompareFrom(xs: seq<real>, ys: seq<real>, i: nat): int
    decreases Max(|xs|, |ys|) - i
  {
    if i >= Max(|xs|, |ys|) then 0
    else if At(xs, i) < At(ys, i) then -1
    else if At(xs, i) > At(ys, i) then 1
    else CompareFrom(xs, ys, i + 1)
  }

  /** The revision breaks a tie only when both sides carry one. */
  function CompareRevisions(a: Version, b: Version): int {
    if !a.hasRevision || !b.hasRevision || a.revision == b.revision then 0
    else if a.revision < b.revision then -1 else 1
  }

  /** Compare(a, b) of the source. */
  function Compare(a: Version, b: Version): int {
    var c := CompareFrom(a.components, b.components, 0);
    if c != 0 then c else CompareRevisions(a, b)
  }

  /** Equal(a, b) of the source: unlike Compare it wants the same number of
      components. */
  predicate Equal(a: Version, b: Version) {
    a.components == b.components && (a.hasRevision && b.hasRevision ==> a.revision == b.revision)
  }

  method CompareVersions(a: Version, b: Version) returns (c: int)
    ensures c == Compare(a, b)
  {
    var n := if |a.components| < |b.components| then |b.components| else |a.components|;
    for i := 0 to n
      invariant CompareFrom(a.components, b.components, 0) == CompareFrom(a.components, b.components, i)
    {
      var ai, bi := 0.0, 0.0;
      if i < |a.components| {
        ai := a.components[i];
      }
      if i < |b.components| {
        bi := b.components[i];
      }
      if ai != bi {
        if ai < bi {
          return -1;
        }
        return 1;
      }
    }
    if a.hasRevision && b.hasRevision && a.revision != b.revision {
      if a.revision < b.revision {
        return -1;
      }
      return 1;
    }
    return 0;
  }

  method EqualVersions(a: Version, b: Version) returns (same: bool)
    ensures same == Equal(a, b)
  {
    if |a.components| != |b.components| {
      return false;
    }
    for i := 0 to |a.components|
      invariant a.components[..i] == b.components[..i]
    {
      if a.components[i] != b.components[i] {
        return false;
      }
    }
    assert a.components[..|a.components|] == a.components && b.components[..|b.components|] == b.components;
    if a.hasRevision && b.hasRevision {
      return a.revision == b.revision;
    }
    return true;
  }

  /** Equal once padded with zeros. */
  ghost predicate PadEqual(xs: seq<real>, ys: seq<real>) {
    forall j: nat :: At(xs, j) == At(ys, j)
  }

  ghost predicate SmallerAt(xs: seq<real>, ys: seq<real>, i: nat) {
    At(xs, i) < At(ys, i) && forall j: nat :: j < i ==> At(xs, j) == At(ys, j)
  }

  /** Lexicographically smaller as zero-padded sequences: the first place where the
      two differ decides. */
  ghost predicate PadLess(xs: seq<real>, ys: seq<real>) {
    exists i: nat :: SmallerAt(xs, ys, i)
  }

  lemma {:induction false} CompareFromMeaning(xs: seq<real>, ys: seq<real>, i: nat)
    requires forall j: nat :: j < i ==> At(xs, j) == At(ys, j)
    ensures var c := CompareFrom(xs, ys, i);
      && (c == 0 <==> PadEqual(xs, ys))
      && (c == -1 <==> PadLess(xs, ys))
      && (c == 1 <==> PadLess(ys, xs))
      && -1 <= c <= 1
    decreases Max(|xs|, |ys|) - i
  {
    if i >= Max(|xs|, |ys|) {
      assert PadEqual(xs, ys);
    } else if At(xs, i) == At(ys, i) {
      CompareFromMeaning(xs, ys, i + 1);
    } else if At(xs, i) < At(ys, i) {
      assert SmallerAt(xs, ys, i);
      NotBothLess(xs, ys, i);
    } else {
      assert SmallerAt(ys, xs, i);
      NotBothLess(ys, xs, i);
    }
  }

  lemma {:induction false} NotBothLess(xs: seq<real>, ys: seq<real>, i: nat)
    requires SmallerAt(xs, ys, i)
    ensures !PadLess(ys, xs) && !PadEqual(xs, ys)
  {
    forall j: nat ensures !SmallerAt(ys, xs, j) {
      if j < i {
        assert At(xs, j) == At(ys, j);
      }
    }
  }

  lemma {:induction false} PadLessTransitive(xs: seq<real>, ys: seq<real>, zs: seq<real>)
    requires PadLess(xs, ys) || PadEqual(xs, ys)
    requires PadLess(ys, zs) || PadEqual(ys, zs)
    ensures if PadEqual(xs, ys) && PadEqual(ys, zs) then PadEqual(xs, zs) else PadLess(xs, zs)
  {
    if PadEqual(xs, ys) && PadEqual(ys, zs) {
    } else if PadEqual(xs, ys) {
      var j: nat :| SmallerAt(ys, zs, j);
      assert SmallerAt(xs, zs, j);
    } else if PadEqual(ys, zs) {
      var i: nat :| SmallerAt(xs, ys, i);
      assert SmallerAt(xs, zs, i);
    } else {
      var i: nat :| SmallerAt(xs, ys, i);
      var j: nat :| SmallerAt(ys, zs, j);
      assert SmallerAt(xs, zs, if i < j then i else j);
    }
  }

  lemma {:induction false} ComponentsMeaning(xs: seq<real>, ys: seq<real>)
    ensures CompareFrom(xs, ys, 0) == -CompareFrom(ys, xs, 0)
    ensures CompareFrom(xs, ys, 0) == if PadEqual(xs, ys) then 0 else if PadLess(xs, ys) then -1 else 1
  {
    CompareFromMeaning(xs, ys, 0);
    CompareFromMeaning(ys, xs, 0);
    assert PadEqual(xs, ys) <==> PadEqual(ys, xs);
  }

  /** Components compare as zero-padded sequences in lexicographic order. */
  lemma {:induction false} ComponentOrder(xs: seq<real>, ys: seq<real>, zs: seq<real>)
    ensures CompareFrom(xs, ys, 0) == -CompareFrom(ys, xs, 0)
    ensures CompareFrom(xs, ys, 0) <= 0 && CompareFrom(ys, zs, 0) <= 0 ==>
      CompareFrom(xs, zs, 0) <= 0
      && (CompareFrom(xs, zs, 0) == 0 <==> CompareFrom(xs, ys, 0) == 0 && CompareFrom(ys, zs, 0) == 0)
  {
    ComponentsMeaning(xs, ys);
    ComponentsMeaning(ys, zs);
    ComponentsMeaning(xs, zs);
    if CompareFrom(xs, ys, 0) <= 0 && CompareFrom(ys, zs, 0) <= 0 {
      PadLessTransitive(xs, ys, zs);
      if PadLess(xs, zs) {
        var i: nat :| SmallerAt(xs, zs, i);
        NotBothLess(xs, zs, i);
      }
    }
  }

  /** Compare is antisymmetric and its strict part is transitive on all versions. */
  lemma StrictOrder(a: Version, b: Version, c: Version)
    ensures Compare(a, b) == -Compare(b, a)
    ensures Compare(a, b) < 0 && Compare(b, c) < 0 ==> Compare(a, c) < 0
  {
    ComponentOrder(a.components, b.components, c.components);
    ComponentOrder(b.components, a.components, c.components);
  }

  /** Among versions that all carry a revision, or all carry none, ties are
      transitive too, so Compare is a total preorder there. */
  lemma UniformOrder(a: Version, b: Version, c: Version)
    requires a.hasRevision == b.hasRevision == c.hasRevision
    ensures Compare(a, b) <= 0 && Compare(b, c) <= 0 ==> Compare(a, c) <= 0
  {
    ComponentOrder(a.components, b.components, c.components);
  }

  /** A version without revision ties with every revision of itself. */
  lemma TieIsNotTransitive()
    ensures
      var v1 := Version("1.0-1", [1.0, 0.0], 1, true, false, false);
      var v := Version("1.0", [1.0, 0.0], 0, false, false, false);
      var v2 := Version("1.0-2", [1.0, 0.0], 2, true, false, false);
      Compare(v1, v) == 0 && Compare(v, v2) == 0 && Compare(v1, v2) < 0
  {
    CompareFromMeaning([1.0, 0.0], [1.0, 0.0], 0);
  }

  /** Equal versions are tied; tied ones are equal up to trailing zeros. */
  lemma EqualIsTie(a: Version, b: Version)
    ensures Equal(a, b) ==> Compare(a, b) == 0
    ensures |a.components| == |b.components| ==> (Equal(a, b) <==> Compare(a, b) == 0)
  {
    CompareFromMeaning(a.components, b.components, 0);
    if |a.components| == |b.components| && Compare(a, b) == 0 {
      forall i | 0 <= i < |a.components| ensures a.components[i] == b.components[i] {
        assert At(a.components, i) == At(b.components, i);
      }
    }
  }

  // ---- tokens ------------------------------------------------------------

  datatype Token = Number(n: nat) | Word(w: string)

  datatype Parsed<+T> = Ok(value: T) | Bad {
    predicate IsFailure() {
      Bad?
    }
    function PropagateFailure<U>(): Parsed<U>
      requires Bad?
    {
      Bad
    }
    function Extract(): T
      requires Ok?
    {
      value
    }
  }

  predicate IsLetter(c: char) {
    'a' <= c <= 'z' || 'A' <= c <= 'Z'
  }

  predicate IsSeparator(c: char) {
    c == '.' || c == '_' || c == '-'
  }

  predicate IsSpace(c: char) {
    c == ' ' || '\t' <= c <= '\r'
  }

  const MAX_INT := 0x7FFF_FFFF_FFFF_FFFF

  /** strconv.Atoi on a digit string. */
  function Atoi(t: string): Parsed<nat>
    requires All(t, IsDigit)
  {
    if DecimalValue(t) > MAX_INT then Bad else Ok(DecimalValue(t))
  }

  /** The rest behind a token: separators are skipped. */
  function SkipSeparators(t: string): (r: string)
    ensures |r| <= |t|
  {
    t[Run(t, IsSeparator)..]
  }

  /** digitsRe, then alphaRe: the leading token of t and the rest.  Neither pattern
      matches across a newline. */
  function NextToken(t: string): (r: Parsed<(Token, string)>)
    ensures r.Ok? ==> |r.value.1| < |t|
    ensures r.Ok? && r.value.0.Word? ==> r.value.0.w != ""
  {
    if '\n' in t then Bad else
      var n := Run(t, IsDigit);
      if n > 0 then
        var v :- Atoi(t[..n]);
        Ok((Number(v), SkipSeparators(t[n..])))
      else
        var k := Run(t, IsLetter);
        if k > 0 then Ok((Word(t[..k]), SkipSeparators(t[k..]))) else Bad
  }

  function Tokens(t: string): Parsed<seq<Token>>
    decreases |t|
  {
    if t == "" then Ok([]) else
      var first :- NextToken(t);
      var rest :- Tokens(first.1);
      Ok([first.0] + rest)
  }

  // ---- slots -------------------------------------------------------------

  const KEYWORD_DELTAS: map<string, real> := map[
    "dev" := 120000000.0, "scm" := 110000000.0, "cvs" := 100000000.0,
    "rc" := -1000.0, "pre" := -10000.0, "beta" := -100000.0, "alpha" := -1000000.0]

  /** What a word puts into its slot; unknown words count by their first byte. */
  function Delta(w: string): real
    requires w != ""
  {
    if w in KEYWORD_DELTAS then KEYWORD_DELTAS[w] else (w[0] as int) as real / 1000.0
  }

  /** The component at the cursor: none yet, or one that holds what words put into it. */
  datatype Slot = Unopened | Opened(delta: real)

  predicate WordsOk(toks: seq<Token>) {
    forall i :: 0 <= i < |toks| ==> toks[i].Word? ==> toks[i].w != ""
  }

  /** One component for each number, holding the word before it if there is one, and
      one more for a word at the end. */
  function Slots(toks: seq<Token>, open: Slot): seq<real>
    requires WordsOk(toks)
    decreases |toks|
  {
    if toks == [] then (if open.Unopened? then [] else [open.delta])
    else match toks[0]
      case Word(w) => Slots(toks[1..], Opened(Delta(w)))
      case Number(n) =>
        [if open.Unopened? then n as real else open.delta + n as real / 100000.0]
        + Slots(toks[1..], Unopened)
  }

  function Numbers(toks: seq<Token>): nat {
    if toks == [] then 0 else (if toks[0].Number? then 1 else 0) + Numbers(toks[1..])
  }

  /** k numbers make k slots, or k + 1 when words follow the last one. */
  lemma {:induction false} SlotCount(toks: seq<Token>, open: Slot)
    requires WordsOk(toks)
    ensures var k := Numbers(toks);
      |Slots(toks, open)| == if toks == [] then (if open.Unopened? then 0 else 1)
                             else if toks[|toks| - 1].Word? then k + 1 else k
    decreases |toks|
  {
    if toks != [] {
      SlotCount(toks[1..], if toks[0].Word? then Opened(Delta(toks[0].w)) else Unopened);
    }
  }

  lemma TokensOk(t: string)
    ensures Tokens(t).Ok? ==> WordsOk(Tokens(t).value)
    decreases |t|
  {
    if t != "" && NextToken(t).Ok? {
      TokensOk(NextToken(t).value.1);
    }
  }

  // ---- parsing -----------------------------------------------------------

  function TrimLeft(t: string): (r: string)
    ensures |r| <= |t|
  {
    t[Run(t, IsSpace)..]
  }

  function TrimRight(t: string): (r: string)
    ensures |r| <= |t|
  {
    if t != [] && IsSpace(t[|t| - 1]) then TrimRight(t[..|t| - 1]) else t
  }

  /** strings.TrimSpace on ASCII. */
  function TrimSpace(t: string): string {
    TrimRight(TrimLeft(t))
  }

  /** Length of the digits at the end of t. */
  function TailDigits(t: string): (n: nat)
    ensures n <= |t| && All(t[|t| - n..], IsDigit)
    ensures n < |t| ==> !IsDigit(t[|t| - n - 1])
  {
    if t == [] || !IsDigit(t[|t| - 1]) then 0
    else
      var u := t[..|t| - 1];
      var n := TailDigits(u);
      assert t[|t| - (n + 1)..] == u[|u| - n..] + [t[|t| - 1]];
      n + 1
  }

  /** revisionRe: a "-" and digits at the end. */
  predicate HasRevisionSuffix(t: string) {
    var n := TailDigits(t);
    n > 0 && n < |t| && t[|t| - n - 1] == '-' && '\n' !in t
  }

  function ParseBody(raw: string, body: string, revision: int, hasRevision: bool): Parsed<Version> {
    TokensOk(body);
    var toks :- Tokens(body);
    var slots := Slots(toks, Unopened);
    Ok(Version(raw, if slots == [] then [0.0] else slots, revision, hasRevision,
               Word("scm") in toks, Word("dev") in toks))
  }

  /** ParseVersion(s) of the source. */
  function Parse(s: string): Parsed<Version> {
    var t := TrimSpace(s);
    if t == "" then Bad
    else if HasRevisionSuffix(t) then
      var n := TailDigits(t);
      var rev :- Atoi(t[|t| - n..]);
      ParseBody(s, t[..|t| - n - 1], rev, true)
    else ParseBody(s, t, 0, false)
  }

  /** The in-place slot loop of the source. */
  method ParseVersion(s: string) returns (r: Parsed<Version>)
    ensures r == Parse(s)
  {
    var trimmed := TrimSpace(s);
    if trimmed == "" {
      return Bad;
    }
    var revision, hasRevision := 0, false;
    if HasRevisionSuffix(trimmed) {
      var n := TailDigits(trimmed);
      var rev := Atoi(trimmed[|trimmed| - n..]);
      if rev.Bad? {
        return Bad;
      }
      trimmed := trimmed[..|trimmed| - n - 1];
      revision, hasRevision := rev.value, true;
    }
    r := SlotLoop(s, trimmed, revision, hasRevision);
  }

  /** The slot a word has opened and no number has closed yet. */
  ghost function OpenSlot(components: seq<real>, i: nat): Slot {
    if i < |components| then Opened(components[i]) else Unopened
  }

  /** What the slots before i and the unread tokens rest still stand for. */
  ghost function Pending(components: seq<real>, i: nat, rest: seq<Token>): seq<real>
    requires i <= |components| && WordsOk(rest)
  {
    components[..i] + Slots(rest, OpenSlot(components, i))
  }

  lemma {:induction false} NumberStep(components: seq<real>, i: nat, n: nat, after: seq<real>, rest: seq<Token>)
    requires i <= |components| <= i + 1 && WordsOk(rest)
    requires after == if i < |components| then components[i := components[i] + n as real / 100000.0]
                      else components + [n as real]
    ensures WordsOk([Number(n)] + rest)
    ensures Pending(components, i, [Number(n)] + rest) == Pending(after, i + 1, rest)
  {
    assert ([Number(n)] + rest)[1..] == rest;
    assert after[..i + 1] == components[..i] + [after[i]];
  }

  lemma {:induction false} WordStep(components: seq<real>, i: nat, w: string, after: seq<real>, rest: seq<Token>)
    requires i <= |components| && |after| == i + 1 && w != "" && WordsOk(rest)
    requires after[..i] == components[..i] && after[i] == Delta(w)
    ensures WordsOk([Word(w)] + rest)
    ensures Pending(components, i, [Word(w)] + rest) == Pending(after, i, rest)
  {
    assert ([Word(w)] + rest)[1..] == rest;
  }

  /** Reading cur on from the slots so far gives what reading all of body gives. */
  ghost predicate SlotsSoFar(body: string, cur: string, components: seq<real>, i: nat, isSCM: bool, isDev: bool) {
    && i <= |components| <= i + 1
    && (Tokens(cur).Ok? <==> Tokens(body).Ok?)
    && (Tokens(cur).Ok? ==>
          var all, rest := Tokens(body).value, Tokens(cur).value;
          && WordsOk(all) && WordsOk(rest)
          && Slots(all, Unopened) == Pending(components, i, rest)
          && (Word("scm") in all <==> isSCM || Word("scm") in rest)
          && (Word("dev") in all <==> isDev || Word("dev") in rest))
  }

  lemma {:induction false} TokensStep(cur: string)
    requires cur != "" && NextToken(cur).Ok?
    ensures var tok, rest := NextToken(cur).value.0, Tokens(NextToken(cur).value.1);
      && (Tokens(cur).Ok? <==> rest.Ok?)
      && (rest.Ok? ==> Tokens(cur).value == [tok] + rest.value && WordsOk(rest.value))
  {
    TokensOk(NextToken(cur).value.1);
  }

  lemma {:induction false} SlotsSoFarNumber(body: string, cur: string, components: seq<real>, i: nat,
                                            isSCM: bool, isDev: bool, n: nat, after: seq<real>)
    requires SlotsSoFar(body, cur, components, i, isSCM, isDev)
    requires cur != "" && NextToken(cur).Ok? && NextToken(cur).value.0 == Number(n)
    requires after == if i < |components| then components[i := components[i] + n as real / 100000.0]
                      else components + [n as real]
    ensures SlotsSoFar(body, NextToken(cur).value.1, after, i + 1, isSCM, isDev)
  {
    TokensStep(cur);
    var rest := Tokens(NextToken(cur).value.1);
    if rest.Ok? {
      NumberStep(components, i, n, after, rest.value);
    }
  }

  lemma {:induction false} SlotsSoFarWord(body: string, cur: string, components: seq<real>, i: nat,
                                          isSCM: bool, isDev: bool, w: string, after: seq<real>)
    requires SlotsSoFar(body, cur, components, i, isSCM, isDev)
    requires cur != "" && NextToken(cur).Ok? && NextToken(cur).value.0 == Word(w)
    requires |after| == i + 1 && after[..i] == components[..i] && after[i] == Delta(w)
    ensures SlotsSoFar(body, NextToken(cur).value.1, after, i, isSCM || w == "scm", isDev || w == "dev")
  {
    TokensStep(cur);
    var rest := Tokens(NextToken(cur).value.1);
    if rest.Ok? {
      WordStep(components, i, w, after, rest.value);
    }
  }

  lemma {:induction false} SlotsSoFarStart(body: string)
    ensures SlotsSoFar(body, body, [], 0, false, false)
  {
    TokensOk(body);
  }

  lemma {:induction false} SlotsSoFarEnd(raw: string, body: string, components: seq<real>, i: nat,
                                         isSCM: bool, isDev: bool, revision: int, hasRevision: bool)
    requires SlotsSoFar(body, "", components, i, isSCM, isDev)
    ensures ParseBody(raw, body, revision, hasRevision)
         == Ok(Version(raw, if components == [] then [0.0] else components, revision, hasRevision, isSCM, isDev))
  {
    assert components[..i] + Slots([], OpenSlot(components, i)) == components;
  }

  /** One turn of the slot loop.  i indexes the slot the next number goes to; words
      write into it without advancing it. */
  method TakeToken(ghost body: string, cur: string, components: seq<real>, i: nat, isSCM: bool, isDev: bool)
    returns (ok: bool, cur': string, components': seq<real>, i': nat, isSCM': bool, isDev': bool)
    requires cur != "" && SlotsSoFar(body, cur, components, i, isSCM, isDev)
    ensures !ok ==> Tokens(body).Bad?
    ensures ok ==> |cur'| < |cur| && SlotsSoFar(body, cur', components', i', isSCM', isDev')
  {
    cur', components', i', isSCM', isDev' := cur, components, i, isSCM, isDev;
    var tok := NextToken(cur);
    if tok.Bad? {
      return false, cur', components', i', isSCM', isDev';
    }
    ok, cur' := true, tok.value.1;
    match tok.value.0 {
      case Number(n) =>
        if i < |components| {
          components' := components[i := components[i] + n as real / 100000.0];
        } else {
          components' := components + [n as real];
        }
        SlotsSoFarNumber(body, cur, components, i, isSCM, isDev, n, components');
        i' := i + 1;
      case Word(w) =>
        if w == "scm" {
          isSCM' := true;
        } else if w == "dev" {
          isDev' := true;
        }
        components' := OpenAndSet(components, i, Delta(w));
        SlotsSoFarWord(body, cur, components, i, isSCM, isDev, w, components');
    }
  }

  /** The slot loop of ParseVersion. */
  method SlotLoop(raw: string, body: string, revision: int, hasRevision: bool)
    returns (r: Parsed<Version>)
    ensures r == ParseBody(raw, body, revision, hasRevision)
  {
    var cur := body;
    var components: seq<real> := [];
    var i := 0;
    var isSCM, isDev := false, false;
    SlotsSoFarStart(body);
    while |cur| > 0
      invariant SlotsSoFar(body, cur, components, i, isSCM, isDev)
      decreases |cur|
    {
      var ok;
      ok, cur, components, i, isSCM, isDev := TakeToken(body, cur, components, i, isSCM, isDev);
      if !ok {
        return Bad;
      }
    }
    SlotsSoFarEnd(raw, body, components, i, isSCM, isDev, revision, hasRevision);
    if |components| == 0 {
      components := components + [0.0];
      assert components == [0.0];
    }
    return Ok(Version(raw, components, revision, hasRevision, isSCM, isDev));
  }

  /** Opens slot i if the numbers have not reached it, and writes delta into it. */
  method OpenAndSet(components: seq<real>, i: nat, delta: real) returns (r: seq<real>)
    requires i <= |components| <= i + 1
    ensures |r| == i + 1 && r[..i] == components[..i] && r[i] == delta
  {
    r := components;
    while |r| <= i
      invariant i <= |r| <= i + 1 && r[..i] == components[..i]
      decreases i + 1 - |r|
    {
      r := r + [0.0];
    }
    r := r[i := delta];
  }
}
