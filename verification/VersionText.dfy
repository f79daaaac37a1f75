/** What the spelling of a version says about its order. */
module VersionText {
  import opened Text
  import opened Versions

  // ---- spellings -----------------------------------------------------------

  /** A token as written, and the separators behind it. */
  datatype Piece = Piece(text: string, sep: string)

  predicate IsNumeral(t: string) {
    t != "" && All(t, IsDigit) && DecimalValue(t) <= MAX_INT
  }

  predicate IsWord(t: string) {
    t != "" && All(t, IsLetter)
  }

  /** Numerals and words, kept apart by separators where two of a kind meet. */
  predicate Spelled(ps: seq<Piece>) {
    && (forall i :: 0 <= i < |ps| ==> (IsNumeral(ps[i].text) || IsWord(ps[i].text)) && All(ps[i].sep, IsSeparator))
    && (forall i :: 0 < i < |ps| ==>
          ps[i - 1].sep != "" || (IsNumeral(ps[i - 1].text) <==> IsWord(ps[i].text)))
  }

  function Spell(ps: seq<Piece>): string {
    if ps == [] then "" else ps[0].text + (ps[0].sep + Spell(ps[1..]))
  }

  function TokenOf(p: Piece): Token
    requires IsNumeral(p.text) || IsWord(p.text)
  {
    if IsNumeral(p.text) then Number(DecimalValue(p.text)) else Word(p.text)
  }

  function TokensOf(ps: seq<Piece>): (toks: seq<Token>)
    requires Spelled(ps)
    ensures WordsOk(toks) && |toks| == |ps|
  {
    if ps == [] then [] else [TokenOf(ps[0])] + TokensOf(ps[1..])
  }

  /** The characters of a version without surrounding space. */
  predicate IsVersionChar(c: char) {
    IsDigit(c) || IsLetter(c) || IsSeparator(c)
  }

  lemma {:induction false} SpellChars(ps: seq<Piece>)
    requires Spelled(ps)
    ensures All(Spell(ps), IsVersionChar)
    ensures Spell(ps) != "" ==> !IsSeparator(Spell(ps)[0])
    ensures ps != [] ==> Spell(ps) != ""
  {
    if ps != [] {
      SpellChars(ps[1..]);
    }
  }

  lemma NewlineIsNoVersionChar(t: string)
    requires All(t, IsVersionChar)
    ensures '\n' !in t
  {
  }

  lemma {:induction false} SpellStart(ps: seq<Piece>)
    requires Spelled(ps) && ps != []
    ensures Spell(ps) != ""
    ensures IsWord(ps[0].text) ==> IsLetter(Spell(ps)[0])
    ensures IsNumeral(ps[0].text) ==> IsDigit(Spell(ps)[0])
  {
  }

  /** What stands behind the first token cannot belong to it. */
  lemma {:induction false} TokenEnds(ps: seq<Piece>)
    requires Spelled(ps) && ps != []
    ensures var behind := ps[0].sep + Spell(ps[1..]);
      && (IsNumeral(ps[0].text) ==> behind == "" || !IsDigit(behind[0]))
      && (IsWord(ps[0].text) ==> behind == "" || !IsLetter(behind[0]))
      && SkipSeparators(behind) == Spell(ps[1..])
  {
    var sep, rest := ps[0].sep, Spell(ps[1..]);
    SpellChars(ps[1..]);
    RunAppend(sep, rest, IsSeparator);
    if sep == "" && |ps| > 1 {
      assert IsNumeral(ps[0].text) <==> IsWord(ps[1].text);
      SpellStart(ps[1..]);
      assert sep + rest == rest;
    }
  }

  lemma {:induction false} NumeralToken(text: string, behind: string)
    requires IsNumeral(text) && '\n' !in text + behind && (behind == "" || !IsDigit(behind[0]))
    ensures NextToken(text + behind) == Ok((Number(DecimalValue(text)), SkipSeparators(behind)))
  {
    RunAppend(text, behind, IsDigit);
  }

  lemma {:induction false} WordToken(text: string, behind: string)
    requires IsWord(text) && '\n' !in text + behind && (behind == "" || !IsLetter(behind[0]))
    ensures NextToken(text + behind) == Ok((Word(text), SkipSeparators(behind)))
  {
    RunAppend(text, behind, IsLetter);
    RunIs(text + behind, IsDigit, 0);
  }

  /** The first token of a spelling, whatever separates it from the next. */
  lemma {:induction false} FirstToken(ps: seq<Piece>)
    requires Spelled(ps) && ps != []
    ensures NextToken(Spell(ps)) == Ok((TokenOf(ps[0]), Spell(ps[1..])))
  {
    var behind := ps[0].sep + Spell(ps[1..]);
    SpellChars(ps);
    NewlineIsNoVersionChar(Spell(ps));
    TokenEnds(ps);
    if IsNumeral(ps[0].text) {
      NumeralToken(ps[0].text, behind);
    } else {
      WordToken(ps[0].text, behind);
    }
  }

  /** Tokenizing a spelling gives its tokens: the separators do not matter. */
  lemma {:induction false} SpellingTokens(ps: seq<Piece>)
    requires Spelled(ps)
    ensures Tokens(Spell(ps)) == Ok(TokensOf(ps))
  {
    if ps != [] {
      SpellChars(ps);
      FirstToken(ps);
      SpellingTokens(ps[1..]);
    }
  }

  // ---- revisions -----------------------------------------------------------

  lemma {:induction false} NothingToTrim(t: string)
    requires All(t, IsVersionChar)
    ensures TrimSpace(t) == t
  {
    RunIs(t, IsSpace, 0);
    assert t[0..] == t;
  }

  lemma {:induction false} TailDigitsAre(t: string, digits: string)
    requires All(digits, IsDigit)
    requires t != "" && !IsDigit(t[|t| - 1])
    ensures TailDigits(t + digits) == |digits|
  {
    if digits == "" {
      assert t + digits == t;
    } else {
      var d := digits[..|digits| - 1];
      TailDigitsAre(t, d);
      assert (t + digits)[..|t + digits| - 1] == t + d;
    }
  }

  lemma {:induction false} RevisionSplit(body: string, digits: string)
    requires All(body, IsVersionChar) && digits != "" && All(digits, IsDigit)
    ensures var t := body + "-" + digits;
      && TrimSpace(t) == t && HasRevisionSuffix(t) && TailDigits(t) == |digits|
      && t[|t| - |digits|..] == digits && t[..|t| - |digits| - 1] == body
  {
    var t := body + "-" + digits;
    assert All(t, IsVersionChar);
    NothingToTrim(t);
    NewlineIsNoVersionChar(t);
    TailDigitsAre(body + "-", digits);
  }

  /** A spelling followed by "-r" parses to its tokens' slots and revision r. */
  lemma {:induction false} RevisionedBack(ps: seq<Piece>, r: nat)
    requires Spelled(ps) && r <= MAX_INT
    ensures
      var t, slots := Spell(ps) + "-" + Decimal(r), Slots(TokensOf(ps), Unopened);
      Parse(t) == Ok(Version(t, if slots == [] then [0.0] else slots, r, true,
                             Word("scm") in TokensOf(ps), Word("dev") in TokensOf(ps)))
  {
    SpellChars(ps);
    ParseSplit(Spell(ps), r);
    SpellingTokens(ps);
  }

  lemma {:induction false} ParseSplit(body: string, r: nat)
    requires All(body, IsVersionChar) && r <= MAX_INT
    ensures var t := body + "-" + Decimal(r); Parse(t) == ParseBody(t, body, r, true)
  {
    DecimalRoundTrip(r);
    var digits := Decimal(r);
    ParseSuffixed(body + "-" + digits, body, digits);
  }

  lemma {:induction false} ParseSuffixed(t: string, body: string, digits: string)
    requires All(body, IsVersionChar) && IsNumeral(digits) && t == body + "-" + digits
    ensures Parse(t) == ParseBody(t, body, DecimalValue(digits), true)
  {
    RevisionSplit(body, digits);
    ParseStep(t, body, digits);
  }

  lemma {:induction false} ParseStep(t: string, body: string, digits: string)
    requires TrimSpace(t) == t && t != "" && HasRevisionSuffix(t)
    requires IsNumeral(digits) && TailDigits(t) == |digits|
    requires t[|t| - |digits|..] == digits && t[..|t| - |digits| - 1] == body
    ensures Parse(t) == ParseBody(t, body, DecimalValue(digits), true)
  {
  }

  // ---- dotted numerals -----------------------------------------------------

  function Dotted(ns: seq<nat>): seq<Piece> {
    if ns == [] then []
    else [Piece(Decimal(ns[0]), if |ns| == 1 then "" else ".")] + Dotted(ns[1..])
  }

  function Reals(ns: seq<nat>): (xs: seq<real>)
    ensures |xs| == |ns|
    ensures forall i :: 0 <= i < |ns| ==> xs[i] == ns[i] as real
  {
    seq(|ns|, i requires 0 <= i < |ns| => ns[i] as real)
  }

  predicate Bounded(ns: seq<nat>, limit: nat) {
    forall i :: 0 <= i < |ns| ==> ns[i] < limit
  }

  function NumberTokens(ns: seq<nat>): (toks: seq<Token>)
    ensures WordsOk(toks)
    ensures forall t :: t in toks ==> t.Number?
  {
    if ns == [] then [] else [Number(ns[0])] + NumberTokens(ns[1..])
  }

  lemma {:induction false} SpelledCons(p: Piece, ps: seq<Piece>)
    requires Spelled(ps) && (IsNumeral(p.text) || IsWord(p.text)) && All(p.sep, IsSeparator)
    requires p.sep != "" || ps == [] || (IsNumeral(p.text) <==> IsWord(ps[0].text))
    ensures Spelled([p] + ps) && TokensOf([p] + ps) == [TokenOf(p)] + TokensOf(ps)
  {
    assert ([p] + ps)[1..] == ps;
  }

  lemma {:induction false} DottedSpelled(ns: seq<nat>)
    requires Bounded(ns, MAX_INT + 1)
    ensures Spelled(Dotted(ns)) && TokensOf(Dotted(ns)) == NumberTokens(ns)
  {
    if ns != [] {
      DottedSpelled(ns[1..]);
      DecimalRoundTrip(ns[0]);
      SpelledCons(Piece(Decimal(ns[0]), if |ns| == 1 then "" else "."), Dotted(ns[1..]));
    }
  }

  /** Leading numbers are their own components. */
  lemma {:induction false} NumberSlots(ns: seq<nat>, rest: seq<Token>)
    requires WordsOk(rest)
    ensures WordsOk(NumberTokens(ns) + rest)
    ensures Slots(NumberTokens(ns) + rest, Unopened) == Reals(ns) + Slots(rest, Unopened)
  {
    if ns == [] {
      assert NumberTokens(ns) + rest == rest;
    } else {
      NumberSlots(ns[1..], rest);
      Regroup([Number(ns[0])], NumberTokens(ns[1..]), rest);
      assert Reals(ns) == [ns[0] as real] + Reals(ns[1..]);
      Regroup([ns[0] as real], Reals(ns[1..]), Slots(rest, Unopened));
      assert ([Number(ns[0])] + (NumberTokens(ns[1..]) + rest))[1..] == NumberTokens(ns[1..]) + rest;
    }
  }

  /** "n1.n2...nk-r" parses to the components n1, ..., nk and revision r. */
  lemma {:induction false} NumeralsBack(ns: seq<nat>, r: nat)
    requires ns != [] && Bounded(ns, MAX_INT + 1) && r <= MAX_INT
    ensures var t := Spell(Dotted(ns)) + "-" + Decimal(r);
      Parse(t) == Ok(Version(t, Reals(ns), r, true, false, false))
  {
    DottedSpelled(ns);
    RevisionedBack(Dotted(ns), r);
    NumberSlots(ns, []);
    assert NumberTokens(ns) + [] == NumberTokens(ns);
    assert Reals(ns) + [] == Reals(ns);
  }

  lemma {:induction false} DottedPlain(ns: seq<nat>)
    requires Bounded(ns, MAX_INT + 1)
    ensures '-' !in Spell(Dotted(ns))
  {
    if ns != [] {
      DecimalRoundTrip(ns[0]);
      DottedPlain(ns[1..]);
    }
  }

  lemma {:induction false} PlainBack(t: string)
    requires t != "" && All(t, IsVersionChar) && '-' !in t
    ensures Parse(t) == ParseBody(t, t, 0, false)
  {
    NothingToTrim(t);
  }

  /** A spelling without a hyphen parses to its tokens' slots and no revision. */
  lemma {:induction false} UnrevisionedBack(ps: seq<Piece>)
    requires Spelled(ps) && ps != [] && '-' !in Spell(ps)
    ensures
      var t, slots := Spell(ps), Slots(TokensOf(ps), Unopened);
      Parse(t) == Ok(Version(t, if slots == [] then [0.0] else slots, 0, false,
                             Word("scm") in TokensOf(ps), Word("dev") in TokensOf(ps)))
  {
    SpellChars(ps);
    PlainBack(Spell(ps));
    SpellingTokens(ps);
  }

  /** "n1.n2...nk" parses to the components n1, ..., nk and no revision. */
  lemma {:induction false} PlainNumeralsBack(ns: seq<nat>)
    requires ns != [] && Bounded(ns, MAX_INT + 1)
    ensures var t := Spell(Dotted(ns));
      Parse(t) == Ok(Version(t, Reals(ns), 0, false, false, false))
  {
    DottedSpelled(ns);
    DottedPlain(ns);
    UnrevisionedBack(Dotted(ns));
    NumberSlots(ns, []);
    assert NumberTokens(ns) + [] == NumberTokens(ns);
    assert Reals(ns) + [] == Reals(ns);
  }

  // ---- keywords ------------------------------------------------------------

  const SUFFIX_LIMIT := 100_000_000

  /** The prerelease keywords in the order their versions sort. */
  const STAGES: seq<string> := ["alpha", "beta", "pre", "rc"]

  /** base, a keyword, and its number: "1.2-beta3". */
  function Staged(base: seq<nat>, stage: nat, n: nat): seq<Token>
    requires stage < 4
  {
    NumberTokens(base) + [Word(STAGES[stage]), Number(n)]
  }

  function StageDelta(stage: nat): real
    requires stage < 4
  {
    if stage == 0 then -1000000.0 else if stage == 1 then -100000.0 else if stage == 2 then -10000.0 else -1000.0
  }

  lemma {:induction false} StagedSlots(base: seq<nat>, stage: nat, n: nat)
    requires stage < 4
    ensures WordsOk(Staged(base, stage, n))
    ensures Slots(Staged(base, stage, n), Unopened) == Reals(base) + [StageDelta(stage) + n as real / 100000.0]
  {
    NumberSlots(base, [Word(STAGES[stage]), Number(n)]);
    WordAndNumber(STAGES[stage], n);
    assert Delta(STAGES[stage]) == StageDelta(stage);
  }

  lemma {:induction false} WordAndNumber(w: string, n: nat)
    requires w != ""
    ensures Slots([Word(w), Number(n)], Unopened) == [Delta(w) + n as real / 100000.0]
  {
    var toks := [Word(w), Number(n)];
    assert toks[1..] == [Number(n)];
    assert [Number(n)][1..] == [];
    assert Slots([Number(n)], Opened(Delta(w))) == [Delta(w) + n as real / 100000.0] + Slots([], Unopened);
  }

  /** Two component lists with a common prefix compare by what follows it. */
  lemma {:induction false} CommonPrefix(xs: seq<real>, ys: seq<real>, n: nat)
    requires forall j: nat :: j < n ==> At(xs, j) == At(ys, j)
    requires At(xs, n) < At(ys, n)
    ensures CompareFrom(xs, ys, 0) == -1
  {
    assert SmallerAt(xs, ys, n);
    ComponentsMeaning(xs, ys);
    NotBothLess(xs, ys, n);
  }

  /** base-alphaN < base-betaN < base-preN < base-rcN < base, whatever the numbers
      below 10^8 behind the keywords. */
  lemma {:induction false} StageOrder(base: seq<nat>, stage1: nat, n1: nat, stage2: nat, n2: nat)
    requires stage1 < stage2 <= 4 && n1 < SUFFIX_LIMIT && n2 < SUFFIX_LIMIT
    ensures WordsOk(Staged(base, stage1, n1)) && (stage2 < 4 ==> WordsOk(Staged(base, stage2, n2)))
    ensures
      var xs := Slots(Staged(base, stage1, n1), Unopened);
      var ys := if stage2 < 4 then Slots(Staged(base, stage2, n2), Unopened) else Reals(base);
      CompareFrom(xs, ys, 0) == -1
  {
    StagedSlots(base, stage1, n1);
    if stage2 < 4 { StagedSlots(base, stage2, n2); }
    var xs := Reals(base) + [StageDelta(stage1) + n1 as real / 100000.0];
    var ys := if stage2 < 4 then Reals(base) + [StageDelta(stage2) + n2 as real / 100000.0] else Reals(base);
    forall j: nat | j < |base| ensures At(xs, j) == At(ys, j) {
    }
    assert 0.0 <= n1 as real / 100000.0 < 1000.0 && 0.0 <= n2 as real / 100000.0;
    assert At(xs, |base|) == StageDelta(stage1) + n1 as real / 100000.0;
    assert At(ys, |base|) == if stage2 < 4 then StageDelta(stage2) + n2 as real / 100000.0 else 0.0;
    assert At(xs, |base|) < At(ys, |base|);
    CommonPrefix(xs, ys, |base|);
  }

  /** cvs < scm < dev, all above every version whose first component is below 10^8. */
  lemma {:induction false} DevelopmentOrder(xs: seq<real>)
    requires At(xs, 0) < 100000000.0
    ensures var c, s, d := Slots([Word("cvs")], Unopened), Slots([Word("scm")], Unopened), Slots([Word("dev")], Unopened);
      CompareFrom(xs, c, 0) == -1 && CompareFrom(c, s, 0) == -1 && CompareFrom(s, d, 0) == -1
  {
    assert [Word("cvs")][1..] == [] && [Word("scm")][1..] == [] && [Word("dev")][1..] == [];
    var c, s, d := [100000000.0], [110000000.0], [120000000.0];
    CommonPrefix(xs, c, 0);
    CommonPrefix(c, s, 0);
    CommonPrefix(s, d, 0);
  }

  /** The same on version strings "base-<stage><n>-<r>". */
  lemma {:induction false} StageOrderOnText(base: seq<nat>, stage: nat, n: nat, r: nat, m: nat, q: nat)
    requires base != [] && Bounded(base, MAX_INT + 1) && r <= MAX_INT && q <= MAX_INT
    requires stage < 4 && n < SUFFIX_LIMIT && m < SUFFIX_LIMIT
    ensures
      var t := Spell(StagedPieces(base, stage, n)) + "-" + Decimal(r);
      var u := if stage < 3 then Spell(StagedPieces(base, stage + 1, m)) + "-" + Decimal(q)
               else Spell(Dotted(base)) + "-" + Decimal(q);
      Parse(t).Ok? && Parse(u).Ok? && Compare(Parse(t).value, Parse(u).value) < 0
  {
    StageOrder(base, stage, n, stage + 1, m);
    StagedBack(base, stage, n, r);
    if stage < 3 {
      StagedBack(base, stage + 1, m, q);
    } else {
      NumeralsBack(base, q);
    }
  }

  function StagedPieces(base: seq<nat>, stage: nat, n: nat): seq<Piece>
    requires stage < 4
  {
    Hyphenated(base) + [Piece(STAGES[stage], ""), Piece(Decimal(n), "")]
  }

  /** Dotted numerals with a hyphen behind the last one. */
  function Hyphenated(ns: seq<nat>): seq<Piece> {
    if ns == [] then []
    else [Piece(Decimal(ns[0]), if |ns| == 1 then "-" else ".")] + Hyphenated(ns[1..])
  }

  lemma {:induction false} StagedSpelled(base: seq<nat>, stage: nat, n: nat)
    requires Bounded(base, MAX_INT + 1) && stage < 4 && n <= MAX_INT
    ensures Spelled(StagedPieces(base, stage, n))
    ensures TokensOf(StagedPieces(base, stage, n)) == Staged(base, stage, n)
  {
    if base == [] {
      StagedAlone(stage, n);
    } else {
      var p := Piece(Decimal(base[0]), if |base| == 1 then "-" else ".");
      var tail := StagedPieces(base[1..], stage, n);
      StagedSpelled(base[1..], stage, n);
      DecimalRoundTrip(base[0]);
      assert IsNumeral(p.text);
      SpelledCons(p, tail);
      StagedCons(base, stage, n);
    }
  }

  lemma {:induction false} StagedCons(base: seq<nat>, stage: nat, n: nat)
    requires base != [] && stage < 4
    ensures StagedPieces(base, stage, n)
         == [Piece(Decimal(base[0]), if |base| == 1 then "-" else ".")] + StagedPieces(base[1..], stage, n)
    ensures Staged(base, stage, n) == [Number(base[0])] + Staged(base[1..], stage, n)
  {
    Regroup([Piece(Decimal(base[0]), if |base| == 1 then "-" else ".")], Hyphenated(base[1..]),
            [Piece(STAGES[stage], ""), Piece(Decimal(n), "")]);
    Regroup([Number(base[0])], NumberTokens(base[1..]), [Word(STAGES[stage]), Number(n)]);
  }

  lemma {:induction false} StagedAlone(stage: nat, n: nat)
    requires stage < 4 && n <= MAX_INT
    ensures Spelled(StagedPieces([], stage, n))
    ensures TokensOf(StagedPieces([], stage, n)) == Staged([], stage, n)
  {
    DecimalRoundTrip(n);
    var p, q := Piece(STAGES[stage], ""), Piece(Decimal(n), "");
    assert IsNumeral(q.text) && IsWord(p.text);
    assert [q] == [q] + [];
    SpelledCons(q, []);
    SpelledCons(p, [q]);
    assert StagedPieces([], stage, n) == [p] + [q];
    assert Staged([], stage, n) == [Word(STAGES[stage])] + [Number(n)];
    assert TokensOf([q]) == [Number(n)];
  }

  lemma {:induction false} StagedBack(base: seq<nat>, stage: nat, n: nat, r: nat)
    requires Bounded(base, MAX_INT + 1) && stage < 4 && n <= MAX_INT && r <= MAX_INT
    ensures
      var t, toks := Spell(StagedPieces(base, stage, n)) + "-" + Decimal(r), Staged(base, stage, n);
      WordsOk(toks) && Parse(t).Ok? && Parse(t).value.components == Slots(toks, Unopened)
  {
    StagedSpelled(base, stage, n);
    RevisionedBack(StagedPieces(base, stage, n), r);
    StagedSlots(base, stage, n);
  }
}
