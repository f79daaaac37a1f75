/** What constraints mean for releases, the versions written as dotted numerals with or
    without a revision: operator by operator, on text, and without Compare. */
module ConstraintMeaning {
  import opened Text
  import opened Versions
  import opened VersionText
  import opened Constraints

  // ---- operators on parsed versions ------------------------------------------

  /** v comes before w: by the first component that differs, and where none does by the
      revisions, if both have one. */
  ghost predicate Precedes(v: Version, w: Version) {
    || PadLess(v.components, w.components)
    || (PadEqual(v.components, w.components) && v.hasRevision && w.hasRevision && v.revision < w.revision)
  }

  ghost predicate SameVersion(v: Version, w: Version) {
    v.components == w.components && (v.hasRevision && w.hasRevision ==> v.revision == w.revision)
  }

  /** The components of w are a prefix of those of v, padded with zeros. */
  ghost predicate Extends(v: Version, w: Version) {
    && (forall i :: 0 <= i < |w.components| ==>
          w.components[i] == if i < |v.components| then v.components[i] else 0.0)
    && (w.hasRevision ==> v.revision == w.revision)
  }

  lemma {:induction false} CompareMeaning(v: Version, w: Version)
    ensures Compare(v, w) < 0 <==> Precedes(v, w)
    ensures Compare(v, w) > 0 <==> Precedes(w, v)
  {
    CompareFromMeaning(v.components, w.components, 0);
    assert PadEqual(v.components, w.components) <==> PadEqual(w.components, v.components);
  }

  /** What each operator accepts; an unknown one accepts nothing. */
  lemma {:induction false} OperatorMeaning(v: Version, op: string, w: Version)
    ensures MatchOne(v, Constraint(op, w)) <==>
      match op
      case "==" => SameVersion(v, w)
      case "~=" => !SameVersion(v, w)
      case "<" => Precedes(v, w)
      case ">" => Precedes(w, v)
      case "<=" => !Precedes(w, v)
      case ">=" => !Precedes(v, w)
      case "~>" => Extends(v, w)
      case _ => false
  {
    CompareMeaning(v, w);
  }

  // ---- releases --------------------------------------------------------------

  datatype Revision = Unrevisioned | Revised(n: nat)

  /** A version such as 5.1 or 1.0.2-1. */
  datatype Release = Release(numbers: seq<nat>, revision: Revision)

  predicate Proper(r: Release) {
    r.numbers != [] && Bounded(r.numbers, MAX_INT + 1) && (r.revision.Revised? ==> r.revision.n <= MAX_INT)
  }

  function ReleaseText(r: Release): string {
    if r.revision.Revised? then Spell(Dotted(r.numbers)) + "-" + Decimal(r.revision.n) else Spell(Dotted(r.numbers))
  }

  /** Numbers that are not written are zero. */
  function Place(ns: seq<nat>, i: nat): nat {
    if i < |ns| then ns[i] else 0
  }

  /** The first place where the two differ decides. */
  ghost predicate LowerAt(ms: seq<nat>, ns: seq<nat>, i: nat) {
    Place(ms, i) < Place(ns, i) && forall j: nat :: j < i ==> Place(ms, j) == Place(ns, j)
  }

  ghost predicate Lower(ms: seq<nat>, ns: seq<nat>) {
    exists i: nat :: LowerAt(ms, ns, i)
  }

  ghost predicate Level(ms: seq<nat>, ns: seq<nat>) {
    forall j: nat :: Place(ms, j) == Place(ns, j)
  }

  ghost predicate Older(a: Release, b: Release) {
    || Lower(a.numbers, b.numbers)
    || (Level(a.numbers, b.numbers) && a.revision.Revised? && b.revision.Revised? && a.revision.n < b.revision.n)
  }

  ghost predicate SameRelease(a: Release, b: Release) {
    a.numbers == b.numbers && (a.revision.Revised? && b.revision.Revised? ==> a.revision.n == b.revision.n)
  }

  /** a is b or one of its later places; a release without revision has revision zero
      here. */
  ghost predicate Within(a: Release, b: Release) {
    && (forall i :: 0 <= i < |b.numbers| ==> b.numbers[i] == Place(a.numbers, i))
    && (b.revision.Revised? ==> b.revision.n == if a.revision.Revised? then a.revision.n else 0)
  }

  /** The spellings of the operators. */
  const SPELLINGS: set<string> := {"", "=", "==", "~=", "!=", "<", ">", "<=", ">=", "~>"}

  /** Release a meets the constraint op b. */
  ghost predicate Accepts(op: string, b: Release, a: Release) {
    match op
    case "<" => Older(a, b)
    case ">" => Older(b, a)
    case "<=" => !Older(b, a)
    case ">=" => !Older(a, b)
    case "~>" => Within(a, b)
    case "~=" => !SameRelease(a, b)
    case "!=" => !SameRelease(a, b)
    case _ => SameRelease(a, b)
  }

  function VersionOf(r: Release): Version {
    Version(ReleaseText(r), Reals(r.numbers), if r.revision.Revised? then r.revision.n else 0, r.revision.Revised?,
            false, false)
  }

  lemma {:induction false} ReleaseBack(r: Release)
    requires Proper(r)
    ensures Parse(ReleaseText(r)) == Ok(VersionOf(r))
  {
    if r.revision.Revised? {
      NumeralsBack(r.numbers, r.revision.n);
    } else {
      PlainNumeralsBack(r.numbers);
    }
  }

  lemma {:induction false} PlacesAre(ns: seq<nat>, i: nat)
    ensures At(Reals(ns), i) == Place(ns, i) as real
  {
  }

  lemma {:induction false} LowerIsPadLess(ms: seq<nat>, ns: seq<nat>)
    ensures Lower(ms, ns) <==> PadLess(Reals(ms), Reals(ns))
    ensures Level(ms, ns) <==> PadEqual(Reals(ms), Reals(ns))
    ensures ms == ns <==> Reals(ms) == Reals(ns)
  {
    forall i: nat ensures At(Reals(ms), i) == Place(ms, i) as real && At(Reals(ns), i) == Place(ns, i) as real {
      PlacesAre(ms, i);
      PlacesAre(ns, i);
    }
    if Lower(ms, ns) {
      var i: nat :| LowerAt(ms, ns, i);
      assert SmallerAt(Reals(ms), Reals(ns), i);
    }
    if PadLess(Reals(ms), Reals(ns)) {
      var i: nat :| SmallerAt(Reals(ms), Reals(ns), i);
      assert LowerAt(ms, ns, i);
    }
    if Reals(ms) == Reals(ns) {
      forall i | 0 <= i < |ms| ensures ms[i] == ns[i] {
        assert Reals(ms)[i] == Reals(ns)[i];
      }
    }
  }

  lemma {:induction false} VersionsCompare(a: Release, b: Release)
    ensures Older(a, b) <==> Precedes(VersionOf(a), VersionOf(b))
    ensures SameRelease(a, b) <==> SameVersion(VersionOf(a), VersionOf(b))
    ensures Within(a, b) <==> Extends(VersionOf(a), VersionOf(b))
  {
    LowerIsPadLess(a.numbers, b.numbers);
    assert Within(a, b) <==> Extends(VersionOf(a), VersionOf(b)) by {
      forall i | 0 <= i < |b.numbers|
        ensures b.numbers[i] == Place(a.numbers, i)
            <==> Reals(b.numbers)[i] == if i < |a.numbers| then Reals(a.numbers)[i] else 0.0
      {
        PlacesAre(a.numbers, i);
      }
    }
  }

  lemma {:induction false} AcceptsMeans(op: string, b: Release, a: Release)
    requires op in SPELLINGS
    ensures op in OPERATOR_ALIASES
    ensures MatchOne(VersionOf(a), Constraint(OPERATOR_ALIASES[op], VersionOf(b))) <==> Accepts(op, b, a)
  {
    VersionsCompare(a, b);
    VersionsCompare(b, a);
    OperatorMeaning(VersionOf(a), OPERATOR_ALIASES[op], VersionOf(b));
  }

  // ---- constraint lists as written -------------------------------------------

  /** One constraint as written: an optional "@", an operator, blanks, a release, and
      what stands before the next one. */
  datatype Clause = Clause(at: bool, op: string, blanks: string, release: Release, gap: string)

  predicate PlainBlank(c: char) {
    c == ' ' || c == '\t'
  }

  predicate PlainGap(c: char) {
    PlainBlank(c) || c == ','
  }

  /** A gap is needed between two constraints, and none is written behind the last. */
  predicate Written(cs: seq<Clause>) {
    forall i :: 0 <= i < |cs| ==>
      && cs[i].op in SPELLINGS && Proper(cs[i].release)
      && (!cs[i].at && cs[i].op == "" ==> cs[i].blanks == "")
      && All(cs[i].blanks, PlainBlank) && All(cs[i].gap, PlainGap)
      && (i < |cs| - 1 <==> cs[i].gap != "")
  }

  function ClauseText(c: Clause): string {
    (if c.at then "@" else "") + (c.op + (c.blanks + ReleaseText(c.release)))
  }

  function ListText(cs: seq<Clause>): string {
    if cs == [] then "" else ClauseText(cs[0]) + (cs[0].gap + ListText(cs[1..]))
  }

  function Meant(cs: seq<Clause>): (r: seq<Constraint>)
    requires Written(cs)
    ensures |r| == |cs|
    ensures forall i :: 0 <= i < |cs| ==>
      cs[i].op in OPERATOR_ALIASES && r[i] == Constraint(OPERATOR_ALIASES[cs[i].op], VersionOf(cs[i].release))
  {
    seq(|cs|, i requires 0 <= i < |cs| => Constraint(OPERATOR_ALIASES[cs[i].op], VersionOf(cs[i].release)))
  }

  predicate Starts(c: char) {
    c == '@' || IsOpChar(c) || IsDigit(c)
  }

  lemma {:induction false} ReleaseChars(r: Release)
    requires Proper(r)
    ensures var t := ReleaseText(r);
      t != "" && All(t, IsVersionChar) && IsDigit(t[0]) && '\n' !in t
  {
    DottedSpelled(r.numbers);
    SpellChars(Dotted(r.numbers));
    SpellStart(Dotted(r.numbers));
    DecimalRoundTrip(r.numbers[0]);
    NewlineIsNoVersionChar(ReleaseText(r));
  }

  lemma SpellingsAre(op: string)
    requires op in SPELLINGS
    ensures All(op, IsOpChar) && op in OPERATOR_ALIASES && '\n' !in op
  {
  }

  lemma {:induction false} ClauseEnds(c: Clause)
    requires Written([c.(gap := "")])
    ensures Framed(ClauseText(c))
  {
    var d := c.(gap := "");
    assert [d][0] == d;
    var r := ReleaseText(c.release);
    ReleaseChars(c.release);
    SpellingsAre(c.op);
    var t := ClauseText(c);
    assert t[|t| - 1] == r[|r| - 1];
  }

  predicate Framed(t: string) {
    t != "" && Starts(t[0]) && IsVersionChar(t[|t| - 1]) && '\n' !in t
  }

  lemma {:induction false} FramedTwo(head: string, gap: string, rest: string)
    requires Framed(head) && All(gap, PlainGap)
    requires if rest == "" then gap == "" else Framed(rest)
    ensures Framed(head + (gap + rest))
  {
    var t := head + (gap + rest);
    assert '\n' !in gap;
    assert t[0] == head[0];
    assert t[|t| - 1] == if rest == "" then head[|head| - 1] else rest[|rest| - 1];
  }

  lemma {:induction false} FramedTrimmed(t: string)
    requires Framed(t)
    ensures TrimSpace(t) == t
  {
    TrimNothing(t);
  }

  lemma {:induction false} ListEnds(cs: seq<Clause>)
    requires Written(cs) && cs != []
    ensures Framed(ListText(cs))
  {
    ClauseEnds(cs[0]);
    if |cs| > 1 { ListEnds(cs[1..]); }
    FramedTwo(ClauseText(cs[0]), cs[0].gap, ListText(cs[1..]));
  }

  lemma {:induction false} ListTrimmed(cs: seq<Clause>)
    requires Written(cs)
    ensures TrimSpace(ListText(cs)) == ListText(cs) && '\n' !in ListText(cs)
    ensures cs != [] ==> ListText(cs) != "" && Starts(ListText(cs)[0])
  {
    if cs == [] {
      TrimNothing("");
    } else {
      ListEnds(cs);
      FramedTrimmed(ListText(cs));
    }
  }

  /** Behind the operator the version is read up to the gap. */
  lemma {:induction false} ReleaseRead(r: Release, gap: string, rest: string)
    requires Proper(r) && All(gap, PlainGap) && '\n' !in rest
    requires if rest == "" then gap == "" else gap != "" && Starts(rest[0])
    ensures ReadVersionText(ReleaseText(r) + (gap + rest)) == Ok((ReleaseText(r), rest))
  {
    ReleaseChars(r);
    DropPrefix(ReleaseText(r), gap + rest, IsVersionChar);
    DropPrefix(gap, rest, IsGap);
  }

  lemma {:induction false} OperatorRead(at: bool, op: string, blanks: string, t: string)
    requires op in SPELLINGS && All(blanks, PlainBlank) && (!at && op == "" ==> blanks == "")
    requires t != "" && IsDigit(t[0])
    ensures ReadOperator((if at then "@" else "") + (op + (blanks + t))) == (op, t)
  {
    SpellingsAre(op);
    var u := (if at then "@" else "") + (op + (blanks + t));
    assert !IsBlank(u[0]);
    RunIs(u, IsBlank, 0);
    assert u[0..] == u;
    var behind := op + (blanks + t);
    assert (if u[0] == '@' then u[1..] else u) == behind;
    DropPrefix(op, blanks + t, IsOpChar);
    DropPrefix(blanks, t, IsBlank);
  }

  lemma {:induction false} ClauseSplit(c: Clause, behind: string)
    ensures ClauseText(c) + behind
         == (if c.at then "@" else "") + (c.op + (c.blanks + (ReleaseText(c.release) + behind)))
  {
    RegroupFour(if c.at then "@" else "", c.op, c.blanks, ReleaseText(c.release));
    RegroupFive(if c.at then "@" else "", c.op, c.blanks, ReleaseText(c.release), behind);
  }

  lemma {:induction false} FirstClause(cs: seq<Clause>)
    requires Written(cs) && cs != []
    ensures NextConstraint(ListText(cs)) == Ok((cs[0].op, ReleaseText(cs[0].release), ListText(cs[1..])))
  {
    var c, rest := cs[0], ListText(cs[1..]);
    ListTrimmed(cs[1..]);
    ReleaseRead(c.release, c.gap, rest);
    ReleaseChars(c.release);
    ClauseSplit(c, c.gap + rest);
    OperatorRead(c.at, c.op, c.blanks, ReleaseText(c.release) + (c.gap + rest));
    NextIs(ListText(cs), c.op, ReleaseText(c.release) + (c.gap + rest), ReleaseText(c.release), rest);
  }

  lemma {:induction false} ClauseStep(parse: string -> Parsed<Version>, t: string, out: seq<Constraint>,
                                      op: string, v: Version, ver: string, rest: string, all: seq<Constraint>)
    requires t != "" && op in OPERATOR_ALIASES && parse(ver) == Ok(v)
    requires NextConstraint(t) == Ok((op, ver, rest)) && TrimSpace(rest) == rest
    requires TailReads(parse, rest, out + [Constraint(OPERATOR_ALIASES[op], v)], all)
    ensures TailReads(parse, t, out, all)
  {
  }

  predicate ReadsAll(parse: string -> Parsed<Version>, cs: seq<Clause>) {
    forall i :: 0 <= i < |cs| ==> parse(ReleaseText(cs[i].release)) == Ok(VersionOf(cs[i].release))
  }

  lemma {:induction false} MeantSplit(cs: seq<Clause>, out: seq<Constraint>)
    requires Written(cs) && cs != []
    ensures Written(cs[1..]) && out + Meant(cs) == out + [Meant(cs)[0]] + Meant(cs[1..])
  {
  }

  lemma {:induction false} ListStep(parse: string -> Parsed<Version>, cs: seq<Clause>, out: seq<Constraint>)
    requires Written(cs) && ReadsAll(parse, cs) && cs != [] && Written(cs[1..])
    requires TailReads(parse, ListText(cs[1..]), out + [Meant(cs)[0]], out + Meant(cs))
    ensures TailReads(parse, ListText(cs), out, out + Meant(cs))
  {
    ListTrimmed(cs);
    ListTrimmed(cs[1..]);
    FirstClause(cs);
    var c := cs[0];
    ClauseStep(parse, ListText(cs), out, c.op, VersionOf(c.release), ReleaseText(c.release), ListText(cs[1..]),
               out + Meant(cs));
  }

  lemma {:induction false} ListReads(parse: string -> Parsed<Version>, cs: seq<Clause>, out: seq<Constraint>)
    requires Written(cs) && ReadsAll(parse, cs)
    ensures TailReads(parse, ListText(cs), out, out + Meant(cs))
  {
    if cs == [] {
      assert out + Meant(cs) == out;
      LastRest(parse, out);
    } else {
      MeantSplit(cs, out);
      ListReads(parse, cs[1..], out + [Meant(cs)[0]]);
      ListStep(parse, cs, out);
    }
  }

  lemma {:induction false} AllRead(cs: seq<Clause>)
    requires Written(cs)
    ensures ReadsAll(Parse, cs)
  {
    forall i | 0 <= i < |cs| ensures Parse(ReleaseText(cs[i].release)) == Ok(VersionOf(cs[i].release)) {
      ReleaseBack(cs[i].release);
    }
  }

  /** A written list parses to its constraints, whatever stands between them. */
  lemma {:induction false} ListBack(cs: seq<Clause>)
    requires Written(cs)
    ensures ParseList(ListText(cs)) == Ok(Meant(cs))
  {
    AllRead(cs);
    ListTrimmed(cs);
    ListReads(Parse, cs, []);
    assert [] + Meant(cs) == Meant(cs);
  }

  /** From text to text: a release meets a constraint list as written if and only if it
      meets each constraint as releases are compared, number by number. */
  lemma {:induction false} WrittenMeaning(cs: seq<Clause>, a: Release)
    requires Written(cs) && Proper(a)
    ensures ParseList(ListText(cs)).Ok? && Parse(ReleaseText(a)).Ok?
    ensures Match(Parse(ReleaseText(a)).value, ParseList(ListText(cs)).value) <==>
      forall i :: 0 <= i < |cs| ==> Accepts(cs[i].op, cs[i].release, a)
  {
    ListBack(cs);
    ReleaseBack(a);
    forall i | 0 <= i < |cs|
      ensures MatchOne(VersionOf(a), Meant(cs)[i]) <==> Accepts(cs[i].op, cs[i].release, a)
    {
      AcceptsMeans(cs[i].op, cs[i].release, a);
    }
  }

  // ---- what is read at all ---------------------------------------------------

  predicate BlankText(t: string) {
    forall i :: 0 <= i < |t| ==> t[i] as int in {9, 10, 12, 13, 32}
  }

  predicate GapText(t: string) {
    forall i :: 0 <= i < |t| ==> t[i] as int in {9, 10, 12, 13, 32, 44}
  }

  predicate OperatorChars(t: string) {
    forall i :: 0 <= i < |t| ==> t[i] in "<>=~!"
  }

  predicate VersionChars(t: string) {
    forall i :: 0 <= i < |t| ==>
      '0' <= t[i] <= '9' || 'a' <= t[i] <= 'z' || 'A' <= t[i] <= 'Z' || t[i] == '.' || t[i] == '_' || t[i] == '-'
  }

  lemma {:induction false} RunIsAll(t: string, p: char -> bool)
    ensures var n := Run(t, p); All(t[..n], p) && t == t[..n] + t[n..]
  {
  }

  lemma {:induction false} CharsAre(t: string)
    ensures All(t, IsBlank) <==> BlankText(t)
    ensures All(t, IsGap) <==> GapText(t)
    ensures All(t, IsOpChar) <==> OperatorChars(t)
    ensures All(t, IsVersionChar) <==> VersionChars(t)
  {
    forall i | 0 <= i < |t|
      ensures IsBlank(t[i]) <==> t[i] as int in {9, 10, 12, 13, 32}
      ensures IsGap(t[i]) <==> t[i] as int in {9, 10, 12, 13, 32, 44}
      ensures IsOpChar(t[i]) <==> t[i] in "<>=~!"
    {
    }
  }

  lemma {:induction false} OperatorOnly(t: string) returns (before: string, at: string, blanks: string)
    ensures
      var (op, rest) := ReadOperator(t);
      && BlankText(before) && (at == "" || at == "@") && OperatorChars(op) && BlankText(blanks)
      && t == before + (at + (op + (blanks + rest)))
  {
    var t1 := Drop(t, IsBlank);
    RunIsAll(t, IsBlank);
    before := t[..Run(t, IsBlank)];
    at := if t1 != "" && t1[0] == '@' then "@" else "";
    var t2 := if at == "@" then t1[1..] else t1;
    assert t1 == at + t2;
    RunIsAll(t2, IsOpChar);
    var t3 := Drop(t2, IsOpChar);
    RunIsAll(t3, IsBlank);
    blanks := t3[..Run(t3, IsBlank)];
    CharsAre(before);
    CharsAre(t2[..Run(t2, IsOpChar)]);
    CharsAre(blanks);
  }

  lemma {:induction false} VersionOnly(t: string) returns (gap: string)
    requires ReadVersionText(t).Ok?
    ensures
      var (ver, rest) := ReadVersionText(t).value;
      ver != "" && VersionChars(ver) && GapText(gap) && '\n' !in rest && t == ver + (gap + rest)
  {
    RunIsAll(t, IsVersionChar);
    var u := Drop(t, IsVersionChar);
    RunIsAll(u, IsGap);
    gap := u[..Run(u, IsGap)];
    CharsAre(t[..Run(t, IsVersionChar)]);
    CharsAre(gap);
  }

  /** What is read as one constraint is an optional "@", an operator and a version, with
      blanks before and between them and blanks and commas behind; what is left is on one
      line. */
  lemma {:induction false} ConstraintOnly(t: string)
    returns (before: string, at: string, blanks: string, gap: string)
    requires NextConstraint(t).Ok?
    ensures
      var (op, ver, rest) := NextConstraint(t).value;
      && BlankText(before) && (at == "" || at == "@") && OperatorChars(op) && BlankText(blanks)
      && ver != "" && VersionChars(ver) && GapText(gap) && '\n' !in rest
      && t == before + (at + (op + (blanks + (ver + (gap + rest)))))
  {
    before, at, blanks := OperatorOnly(t);
    gap := VersionOnly(ReadOperator(t).1);
  }

  /** Only the known spellings of operators are read. */
  lemma {:induction false} OperatorKnown(parse: string -> Parsed<Version>, t: string, out: seq<Constraint>)
    requires t != "" && ParseTail(parse, t, out).Ok?
    ensures NextConstraint(t).Ok? && NextConstraint(t).value.0 in SPELLINGS
    ensures parse(NextConstraint(t).value.1).Ok?
  {
    AliasIsSpelling(NextConstraint(t).value.0);
  }

  lemma AliasIsSpelling(op: string)
    ensures op in OPERATOR_ALIASES <==> op in SPELLINGS
  {
  }
}
