/** deps/constraint.go: version constraints, their text and their meaning. */
module Constraints {
  import opened Text
  import opened Versions
  import VersionText

  datatype Constraint = Constraint(op: string, version: Version)

  // ---- meaning -------------------------------------------------------------

  /** The `~>` operator: the requested components are a prefix of the version's. */
  predicate PartialMatch(v: Version, requested: Version) {
    && (forall i :: 0 <= i < |requested.components| ==> requested.components[i] == At(v.components, i))
    && (requested.hasRevision ==> v.revision == requested.revision)
  }

  predicate MatchOne(v: Version, c: Constraint) {
    if c.op == "==" then Equal(v, c.version)
    else if c.op == "~=" then !Equal(v, c.version)
    else if c.op == ">" then Compare(v, c.version) > 0
    else if c.op == "<" then Compare(v, c.version) < 0
    else if c.op == ">=" then Compare(v, c.version) >= 0
    else if c.op == "<=" then Compare(v, c.version) <= 0
    else if c.op == "~>" then PartialMatch(v, c.version)
    else false
  }

  /** Match(v, cs): every constraint holds. */
  predicate Match(v: Version, cs: seq<Constraint>) {
    forall i :: 0 <= i < |cs| ==> MatchOne(v, cs[i])
  }

  method PartialMatches(v: Version, requested: Version) returns (ok: bool)
    ensures ok == PartialMatch(v, requested)
  {
    for i := 0 to |requested.components|
      invariant forall j :: 0 <= j < i ==> requested.components[j] == At(v.components, j)
    {
      var vi := 0.0;
      if i < |v.components| {
        vi := v.components[i];
      }
      if requested.components[i] != vi {
        return false;
      }
    }
    if requested.hasRevision {
      return v.revision == requested.revision;
    }
    return true;
  }

  method Matches(v: Version, cs: seq<Constraint>) returns (ok: bool)
    ensures ok == Match(v, cs)
  {
    for i := 0 to |cs|
      invariant forall j :: 0 <= j < i ==> MatchOne(v, cs[j])
    {
      if !MatchOne(v, cs[i]) {
        return false;
      }
    }
    return true;
  }

  ghost function Op(op: string, v: Version): Constraint {
    Constraint(op, v)
  }

  /** The order operators come in complementary pairs, and equality implies both
      weak ones. */
  lemma Complements(v: Version, w: Version)
    ensures MatchOne(v, Op("==", w)) <==> !MatchOne(v, Op("~=", w))
    ensures MatchOne(v, Op("<", w)) <==> !MatchOne(v, Op(">=", w))
    ensures MatchOne(v, Op(">", w)) <==> !MatchOne(v, Op("<=", w))
    ensures MatchOne(v, Op("==", w)) ==> MatchOne(v, Op(">=", w)) && MatchOne(v, Op("<=", w))
    ensures MatchOne(v, Op("<", w)) <==> MatchOne(w, Op(">", v))
  {
    EqualIsTie(v, w);
    StrictOrder(v, w, v);
  }

  /** a, b and c in component order. */
  ghost predicate InOrder(a: Version, b: Version, c: Version) {
    CompareFrom(a.components, b.components, 0) <= 0 && CompareFrom(b.components, c.components, 0) <= 0
  }

  /** The versions `~> r` accepts have no gaps. */
  ghost predicate Convex(r: Version) {
    forall a, b, c :: InOrder(a, b, c) && PartialMatch(a, r) && PartialMatch(c, r) ==> PartialMatch(b, r)
  }

  lemma {:induction false} PrefixConvex(r: Version, a: Version, b: Version, c: Version)
    requires !r.hasRevision && InOrder(a, b, c) && PartialMatch(a, r) && PartialMatch(c, r)
    ensures PartialMatch(b, r)
  {
    ComponentsMeaning(a.components, b.components);
    ComponentsMeaning(b.components, c.components);
    if i: nat :| i < |r.components| && r.components[i] != At(b.components, i)
                 && forall j: nat :: j < i ==> r.components[j] == At(b.components, j) {
      if At(a.components, i) < At(b.components, i) {
        assert SmallerAt(c.components, b.components, i);
        NotBothLess(c.components, b.components, i);
      } else {
        assert SmallerAt(b.components, a.components, i);
        NotBothLess(b.components, a.components, i);
      }
    } else {
      FirstMismatch(r.components, b.components, 0);
    }
  }

  /** A list that differs somewhere differs at a first place. */
  lemma {:induction false} FirstMismatch(rs: seq<real>, bs: seq<real>, i: nat)
    requires i <= |rs|
    requires forall j: nat :: j < i ==> rs[j] == At(bs, j)
    requires !exists k: nat :: k < |rs| && rs[k] != At(bs, k) && forall j: nat :: j < k ==> rs[j] == At(bs, j)
    ensures forall j: nat :: j < |rs| ==> rs[j] == At(bs, j)
    decreases |rs| - i
  {
    if i < |rs| {
      FirstMismatch(rs, bs, i + 1);
    }
  }

  /** `~>` accepts a convex set exactly when it names no revision. */
  lemma {:induction false} ConvexExactly(r: Version)
    ensures Convex(r) <==> !r.hasRevision
  {
    if r.hasRevision {
      // One more component keeps the prefix; only b has another revision.
      var b := r.(components := r.components + [1.0], revision := r.revision + 1);
      var c := r.(components := r.components + [2.0]);
      VersionText.CommonPrefix(r.components, b.components, |r.components|);
      VersionText.CommonPrefix(b.components, c.components, |r.components|);
      assert InOrder(r, b, c) && PartialMatch(r, r) && PartialMatch(c, r) && !PartialMatch(b, r);
    } else {
      forall a, b, c | InOrder(a, b, c) && PartialMatch(a, r) && PartialMatch(c, r)
        ensures PartialMatch(b, r)
      {
        PrefixConvex(r, a, b, c);
      }
    }
  }

  // ---- text ----------------------------------------------------------------

  const OPERATOR_ALIASES: map<string, string> := map[
    "==" := "==", "~=" := "~=", ">" := ">", "<" := "<", ">=" := ">=", "<=" := "<=",
    "~>" := "~>", "" := "==", "=" := "==", "!=" := "~="]

  const OPERATORS: set<string> := {"==", "~=", ">", "<", ">=", "<=", "~>"}

  predicate IsOpChar(c: char) {
    c == '<' || c == '>' || c == '=' || c == '~' || c == '!'
  }

  /** The class \s of the patterns. */
  predicate IsBlank(c: char) {
    c == ' ' || c == '\t' || c == '\n' || c == 12 as char || c == '\r'
  }

  predicate IsGap(c: char) {
    IsBlank(c) || c == ','
  }

  function Drop(t: string, p: char -> bool): (r: string)
    ensures |r| <= |t|
  {
    t[Run(t, p)..]
  }

  /** constraintTokenRe up to the version: an optional "@" and the operator. */
  function ReadOperator(t: string): (r: (string, string))
    ensures |r.1| <= |t|
  {
    var t1 := Drop(t, IsBlank);
    var t2 := if t1 != "" && t1[0] == '@' then t1[1..] else t1;
    (t2[..Run(t2, IsOpChar)], Drop(Drop(t2, IsOpChar), IsBlank))
  }

  /** The version text and the rest behind the gap; the pattern stops at a newline. */
  function ReadVersionText(t: string): (r: Parsed<(string, string)>)
    ensures r.Ok? ==> |r.value.1| < |t|
  {
    var ver := t[..Run(t, VersionText.IsVersionChar)];
    var rest := Drop(Drop(t, VersionText.IsVersionChar), IsGap);
    if ver == "" || '\n' in rest then Bad else Ok((ver, rest))
  }

  /** constraintTokenRe: operator, version text and the rest behind one constraint. */
  function NextConstraint(t: string): (r: Parsed<(string, string, string)>)
    ensures r.Ok? ==> |r.value.2| < |t|
  {
    var op := ReadOperator(t);
    var ver :- ReadVersionText(op.1);
    Ok((op.0, ver.0, ver.1))
  }

  lemma TrimShorter(t: string)
    ensures |TrimSpace(t)| <= |t|
  {
  }

  /** The constraints in rest, behind the ones already in out, with parse for the
      version texts. */
  function ParseTail(parse: string -> Parsed<Version>, rest: string, out: seq<Constraint>): Parsed<seq<Constraint>>
    decreases |rest|
  {
    if rest == "" then Ok(out) else
      var m :- NextConstraint(rest);
      if m.0 !in OPERATOR_ALIASES then Bad else
        var v :- parse(m.1);
        TrimShorter(m.2);
        ParseTail(parse, TrimSpace(m.2), out + [Constraint(OPERATOR_ALIASES[m.0], v)])
  }

  /** ParseConstraints(s) of the source. */
  function ParseList(s: string): Parsed<seq<Constraint>> {
    ParseTail(Parse, TrimSpace(s), [])
  }

  method ParseConstraints(s: string) returns (r: Parsed<seq<Constraint>>)
    ensures r == ParseList(s)
  {
    var out: seq<Constraint> := [];
    var rest := TrimSpace(s);
    while rest != ""
      invariant ParseList(s) == ParseTail(Parse, rest, out)
      decreases |rest|
    {
      var m := NextConstraint(rest);
      if m.Bad? || m.value.0 !in OPERATOR_ALIASES {
        return Bad;
      }
      var v := ParseVersion(m.value.1);
      if v.Bad? {
        return Bad;
      }
      out := out + [Constraint(OPERATOR_ALIASES[m.value.0], v.value)];
      TrimShorter(m.value.2);
      rest := TrimSpace(m.value.2);
    }
    return Ok(out);
  }

  /** formatConstraints on a non-empty list. */
  function Format(cs: seq<Constraint>): string {
    if cs == [] then ""
    else cs[0].op + " " + cs[0].version.raw + (if |cs| == 1 then "" else ", " + Format(cs[1..]))
  }

  predicate Printable(c: Constraint) {
    && c.op in OPERATORS
    && c.version.raw != "" && All(c.version.raw, VersionText.IsVersionChar)
  }

  /** A constraint as ParseConstraints builds it from text without blanks. */
  predicate Canonical(parse: string -> Parsed<Version>, c: Constraint) {
    Printable(c) && parse(c.version.raw) == Ok(c.version)
  }

  lemma OperatorText(op: string)
    requires op in OPERATORS
    ensures op != "" && All(op, IsOpChar) && op in OPERATOR_ALIASES && OPERATOR_ALIASES[op] == op
  {
  }

  lemma {:induction false} TrimNothing(t: string)
    requires t != "" ==> !IsSpace(t[0]) && !IsSpace(t[|t| - 1])
    ensures TrimSpace(t) == t
  {
    RunIs(t, IsSpace, 0);
    assert t[0..] == t;
  }

  lemma {:induction false} DropPrefix(a: string, b: string, p: char -> bool)
    requires All(a, p) && (b == "" || !p(b[0]))
    ensures Run(a + b, p) == |a| && (a + b)[..|a|] == a && Drop(a + b, p) == b
  {
    RunAppend(a, b, p);
  }

  lemma {:induction false} OperatorBack(op: string, t: string)
    requires op in OPERATORS && t != "" && !IsBlank(t[0])
    ensures ReadOperator(op + (" " + t)) == (op, t)
  {
    OperatorText(op);
    var u := op + (" " + t);
    RunIs(u, IsBlank, 0);
    assert u[0..] == u;
    DropPrefix(op, " " + t, IsOpChar);
    DropPrefix(" ", t, IsBlank);
  }

  lemma {:induction false} VersionTextBack(ver: string, gap: string, rest: string)
    requires ver != "" && All(ver, VersionText.IsVersionChar)
    requires gap == ", " || (gap == "" && rest == "")
    requires '\n' !in rest && (rest == "" || IsOpChar(rest[0]))
    ensures ReadVersionText(ver + (gap + rest)) == Ok((ver, rest))
  {
    DropPrefix(ver, gap + rest, VersionText.IsVersionChar);
    DropPrefix(gap, rest, IsGap);
  }

  lemma {:induction false} FormatSplit(cs: seq<Constraint>, gap: string, rest: string)
    requires cs != []
    requires gap + rest == if |cs| == 1 then "" else ", " + Format(cs[1..])
    ensures Format(cs) == cs[0].op + (" " + (cs[0].version.raw + (gap + rest)))
  {
    RegroupFour(cs[0].op, " ", cs[0].version.raw, gap + rest);
  }

  lemma {:induction false} FormatStep(cs: seq<Constraint>)
    requires cs != [] && Printable(cs[0])
    requires cs[1..] != [] ==>
      IsOpChar(Format(cs[1..])[0]) && VersionText.IsVersionChar(Format(cs[1..])[|Format(cs[1..])| - 1])
    requires '\n' !in Format(cs[1..]) && (cs[1..] != [] ==> Format(cs[1..]) != "")
    ensures var t := Format(cs);
      t != "" && IsOpChar(t[0]) && VersionText.IsVersionChar(t[|t| - 1]) && '\n' !in t
  {
    var c := cs[0];
    OperatorText(c.op);
    VersionText.NewlineIsNoVersionChar(c.version.raw);
    var head := c.op + " " + c.version.raw;
    assert '\n' !in c.op;
    assert Format(cs) == head + if |cs| == 1 then "" else ", " + Format(cs[1..]);
    assert head[0] == c.op[0] && head[|head| - 1] == c.version.raw[|c.version.raw| - 1];
  }

  lemma {:induction false} FormatEnds(cs: seq<Constraint>)
    requires cs != [] && forall i :: 0 <= i < |cs| ==> Printable(cs[i])
    ensures var t := Format(cs);
      t != "" && IsOpChar(t[0]) && VersionText.IsVersionChar(t[|t| - 1]) && '\n' !in t
  {
    if |cs| > 1 {
      FormatEnds(cs[1..]);
    }
    FormatStep(cs);
  }

  /** Reading t behind the constraints in out gives cs. */
  predicate TailReads(parse: string -> Parsed<Version>, t: string, out: seq<Constraint>, cs: seq<Constraint>) {
    ParseTail(parse, t, out) == Ok(cs)
  }

  lemma {:induction false} TailStep(parse: string -> Parsed<Version>, t: string, out: seq<Constraint>,
                                    c: Constraint, rest: string, cs: seq<Constraint>)
    requires Canonical(parse, c) && t != ""
    requires NextConstraint(t) == Ok((c.op, c.version.raw, rest))
    requires TailReads(parse, TrimSpace(rest), out + [c], cs)
    ensures TailReads(parse, t, out, cs)
  {
    OperatorText(c.op);
  }

  function RestOf(cs: seq<Constraint>): string {
    if |cs| <= 1 then "" else Format(cs[1..])
  }

  function GapOf(cs: seq<Constraint>): string {
    if |cs| <= 1 then "" else ", "
  }

  lemma {:induction false} NextIs(t: string, op: string, u: string, ver: string, rest: string)
    requires ReadOperator(t) == (op, u) && ReadVersionText(u) == Ok((ver, rest))
    ensures NextConstraint(t) == Ok((op, ver, rest))
  {
  }

  lemma {:induction false} RestTrimmed(cs: seq<Constraint>)
    requires cs != [] && forall i :: 0 <= i < |cs| ==> Printable(cs[i])
    ensures var rest := RestOf(cs);
      TrimSpace(rest) == rest && '\n' !in rest && (rest == "" || IsOpChar(rest[0]))
    ensures GapOf(cs) == ", " || (GapOf(cs) == "" && RestOf(cs) == "")
  {
    if |cs| > 1 {
      FormatEnds(cs[1..]);
    }
    TrimNothing(RestOf(cs));
  }

  lemma {:induction false} NextFormatted(cs: seq<Constraint>)
    requires cs != [] && forall i :: 0 <= i < |cs| ==> Printable(cs[i])
    ensures NextConstraint(Format(cs)) == Ok((cs[0].op, cs[0].version.raw, RestOf(cs)))
  {
    RestTrimmed(cs);
    FormatSplit(cs, GapOf(cs), RestOf(cs));
    NextText(Format(cs), cs[0].op, cs[0].version.raw, GapOf(cs), RestOf(cs));
  }

  lemma {:induction false} NextText(t: string, op: string, ver: string, gap: string, rest: string)
    requires op in OPERATORS && ver != "" && All(ver, VersionText.IsVersionChar)
    requires gap == ", " || (gap == "" && rest == "")
    requires '\n' !in rest && (rest == "" || IsOpChar(rest[0]))
    requires t == op + (" " + (ver + (gap + rest)))
    ensures NextConstraint(t) == Ok((op, ver, rest))
  {
    VersionTextBack(ver, gap, rest);
    OperatorBack(op, ver + (gap + rest));
    NextIs(t, op, ver + (gap + rest), ver, rest);
  }

  lemma {:induction false} OneMore(parse: string -> Parsed<Version>, cs: seq<Constraint>, out: seq<Constraint>,
                                   all: seq<Constraint>)
    requires cs != [] && Canonical(parse, cs[0]) && forall i :: 0 <= i < |cs| ==> Printable(cs[i])
    requires TailReads(parse, RestOf(cs), out + [cs[0]], all)
    ensures TailReads(parse, Format(cs), out, all)
  {
    NextFormatted(cs);
    FormatEnds(cs);
    RestTrimmed(cs);
    TailStep(parse, Format(cs), out, cs[0], RestOf(cs), all);
  }

  lemma {:induction false} FormatTailBack(parse: string -> Parsed<Version>, cs: seq<Constraint>,
                                          out: seq<Constraint>, all: seq<Constraint>)
    requires cs != [] && forall i :: 0 <= i < |cs| ==> Canonical(parse, cs[i])
    requires all == out + cs
    ensures TailReads(parse, Format(cs), out, all)
  {
    if |cs| == 1 {
      assert all == out + [cs[0]];
      LastRest(parse, all);
    } else {
      assert all == out + [cs[0]] + cs[1..];
      FormatTailBack(parse, cs[1..], out + [cs[0]], all);
    }
    OneMore(parse, cs, out, all);
  }

  lemma {:induction false} LastRest(parse: string -> Parsed<Version>, out: seq<Constraint>)
    ensures TailReads(parse, "", out, out)
  {
  }

  /** Printing a constraint list and parsing it gives the list back. */
  lemma {:induction false} FormatBack(cs: seq<Constraint>)
    requires cs != [] && forall i :: 0 <= i < |cs| ==> Canonical(Parse, cs[i])
    ensures ParseList(Format(cs)) == Ok(cs)
  {
    FormatEnds(cs);
    TrimNothing(Format(cs));
    FormatTailBack(Parse, cs, [], cs);
  }
}
