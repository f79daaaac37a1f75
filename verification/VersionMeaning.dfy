/** What a version text means: its numbers and words, one after the other, whatever
    separates them and whatever space surrounds them. */
module VersionMeaning {
  import opened Text
  import opened Versions
  import opened VersionText

  // ---- what is written -------------------------------------------------------

  predicate DigitsOnly(t: string) {
    t != "" && forall i :: 0 <= i < |t| ==> '0' <= t[i] <= '9'
  }

  predicate LettersOnly(t: string) {
    t != "" && forall i :: 0 <= i < |t| ==> 'a' <= t[i] <= 'z' || 'A' <= t[i] <= 'Z'
  }

  predicate SeparatorsOnly(t: string) {
    forall i :: 0 <= i < |t| ==> t[i] == '.' || t[i] == '-' || t[i] == '_'
  }

  predicate WhiteOnly(t: string) {
    forall i :: 0 <= i < |t| ==> t[i] as int in {9, 10, 11, 12, 13, 32}
  }

  /** The largest number of the text form. */
  const LARGEST := 9_223_372_036_854_775_807

  /** Numbers and words, with separators between two of a kind. */
  predicate Written(ps: seq<Piece>) {
    && (forall i :: 0 <= i < |ps| ==>
          (DigitsOnly(ps[i].text) || LettersOnly(ps[i].text)) && SeparatorsOnly(ps[i].sep))
    && (forall i :: 0 < i < |ps| ==>
          ps[i - 1].sep != "" || (DigitsOnly(ps[i - 1].text) <==> LettersOnly(ps[i].text)))
  }

  predicate Small(p: Piece) {
    DigitsOnly(p.text) ==> All(p.text, IsDigit) && DecimalValue(p.text) <= LARGEST
  }

  // ---- what it is worth ------------------------------------------------------

  /** What a word counts for: the seven keywords their weights, other words a thousandth of
      their first letter's code. */
  function WordWorth(w: string): real
    requires w != ""
  {
    match w
    case "dev" => 120000000.0
    case "scm" => 110000000.0
    case "cvs" => 100000000.0
    case "rc" => -1000.0
    case "pre" => -10000.0
    case "beta" => -100000.0
    case "alpha" => -1000000.0
    case _ => (w[0] as int) as real / 1000.0
  }

  /** The components with one more token: a number is one of its own, or the hundred
      thousandths of the word before it; a word is one of its own, in place of a word
      before it. */
  function Added(s: seq<real>, behindWord: bool, tok: Token): (r: seq<real>)
    requires (tok.Word? ==> tok.w != "") && (behindWord ==> s != [])
    ensures r != []
  {
    match tok
    case Number(m) =>
      if behindWord then s[..|s| - 1] + [s[|s| - 1] + m as real / 100_000.0] else s + [m as real]
    case Word(w) => (if behindWord then s[..|s| - 1] else s) + [WordWorth(w)]
  }

  /** Components, token by token. */
  function Worth(toks: seq<Token>): (r: seq<real>)
    requires WordsOk(toks)
    ensures toks != [] ==> r != []
  {
    if toks == [] then []
    else
      var n := |toks| - 1;
      Added(Worth(toks[..n]), n > 0 && toks[n - 1].Word?, toks[n])
  }

  predicate EndsOpen(toks: seq<Token>, open: Slot) {
    if toks == [] then open.Opened? else toks[|toks| - 1].Word?
  }

  lemma DeltaIsWorth(w: string)
    requires w != ""
    ensures Delta(w) == WordWorth(w)
  {
  }

  lemma AddedBehind(head: seq<real>, s: seq<real>, behindWord: bool, tok: Token)
    requires (tok.Word? ==> tok.w != "") && (behindWord ==> s != [])
    ensures Added(head + s, behindWord, tok) == head + Added(s, behindWord, tok)
  {
  }

  /** What the first token leaves to those behind it. */
  function OpenedBy(tok: Token): Slot
    requires tok.Word? ==> tok.w != ""
  {
    if tok.Word? then Opened(Delta(tok.w)) else Unopened
  }

  function ClosedBy(tok: Token, open: Slot): seq<real> {
    match tok
    case Word(_) => []
    case Number(n) => [if open.Unopened? then n as real else open.delta + n as real / 100000.0]
  }

  lemma {:induction false} SlotsFirst(toks: seq<Token>, open: Slot)
    requires toks != [] && WordsOk(toks)
    ensures Slots(toks, open) == ClosedBy(toks[0], open) + Slots(toks[1..], OpenedBy(toks[0]))
    ensures EndsOpen(toks, open) <==> EndsOpen(toks[1..], OpenedBy(toks[0]))
  {
  }

  lemma {:induction false} SlotsOne(tok: Token, open: Slot)
    requires tok.Word? ==> tok.w != ""
    ensures WordsOk([tok]) && Slots([tok], open) == Added(if open.Opened? then [open.delta] else [], open.Opened?, tok)
  {
    SlotsFirst([tok], open);
    assert [tok][1..] == [];
    if tok.Word? { DeltaIsWorth(tok.w); }
  }

  lemma {:induction false} SlotsLast(toks: seq<Token>, tok: Token, open: Slot)
    requires WordsOk(toks) && WordsOk(toks + [tok]) && (tok.Word? ==> tok.w != "")
    ensures EndsOpen(toks, open) ==> Slots(toks, open) != []
    ensures Slots(toks + [tok], open) == Added(Slots(toks, open), EndsOpen(toks, open), tok)
  {
    var all := toks + [tok];
    if toks == [] {
      assert all == [tok];
      SlotsOne(tok, open);
    } else {
      var rest, next := toks[1..], OpenedBy(toks[0]);
      assert all[0] == toks[0] && all[1..] == rest + [tok];
      SlotsFirst(all, open);
      SlotsFirst(toks, open);
      SlotsLast(rest, tok, next);
      AddedBehind(ClosedBy(toks[0], open), Slots(rest, next), EndsOpen(rest, next), tok);
    }
  }

  /** The slots of the parser hold what the tokens are worth. */
  lemma {:induction false} SlotsAreWorth(toks: seq<Token>)
    requires WordsOk(toks)
    ensures Slots(toks, Unopened) == Worth(toks)
  {
    if toks != [] {
      var n := |toks| - 1;
      assert toks == toks[..n] + [toks[n]];
      SlotsAreWorth(toks[..n]);
      SlotsLast(toks[..n], toks[n], Unopened);
    }
  }

  // ---- reading ---------------------------------------------------------------

  function Meant(ps: seq<Piece>): (toks: seq<Token>)
    requires Written(ps)
    ensures WordsOk(toks) && |toks| == |ps|
  {
    if ps == [] then []
    else
      assert DigitsOnly(ps[0].text) || LettersOnly(ps[0].text);
      [if DigitsOnly(ps[0].text) then (assert All(ps[0].text, IsDigit); Number(DecimalValue(ps[0].text))) else Word(ps[0].text)]
      + Meant(ps[1..])
  }

  predicate AllSmall(ps: seq<Piece>) {
    forall i :: 0 <= i < |ps| ==> Small(ps[i])
  }

  lemma {:induction false} PieceIs(p: Piece)
    requires Small(p)
    ensures DigitsOnly(p.text) <==> IsNumeral(p.text)
    ensures LettersOnly(p.text) <==> IsWord(p.text)
    ensures SeparatorsOnly(p.sep) <==> All(p.sep, IsSeparator)
  {
    if DigitsOnly(p.text) { assert All(p.text, IsDigit); }
    if IsNumeral(p.text) { assert forall i :: 0 <= i < |p.text| ==> IsDigit(p.text[i]); }
  }

  lemma {:induction false} WrittenIsSpelled(ps: seq<Piece>)
    requires Written(ps) && AllSmall(ps)
    ensures Spelled(ps)
  {
    forall i | 0 <= i < |ps|
      ensures (IsNumeral(ps[i].text) || IsWord(ps[i].text)) && All(ps[i].sep, IsSeparator)
      ensures (IsNumeral(ps[i].text) <==> DigitsOnly(ps[i].text)) && (IsWord(ps[i].text) <==> LettersOnly(ps[i].text))
    {
      PieceIs(ps[i]);
    }
  }

  lemma {:induction false} MeantIs(ps: seq<Piece>)
    requires Written(ps) && AllSmall(ps) && Spelled(ps)
    ensures TokensOf(ps) == Meant(ps)
  {
    if ps != [] {
      PieceIs(ps[0]);
      MeantIs(ps[1..]);
    }
  }

  lemma {:induction false} WhiteIsSpace(t: string)
    requires WhiteOnly(t)
    ensures All(t, IsSpace)
  {
    forall i | 0 <= i < |t| ensures IsSpace(t[i]) {
      assert t[i] as int in {9, 10, 11, 12, 13, 32};
    }
  }

  lemma {:induction false} TrimmedRight(body: string, back: string)
    requires body != "" && !IsSpace(body[|body| - 1]) && All(back, IsSpace)
    ensures TrimRight(body + back) == body
  {
    var t := body + back;
    if back == "" {
      assert t == body;
    } else {
      assert t[..|t| - 1] == body + back[..|back| - 1];
      TrimmedRight(body, back[..|back| - 1]);
    }
  }

  lemma {:induction false} Trimmed(front: string, body: string, back: string)
    requires WhiteOnly(front) && WhiteOnly(back) && body != "" && All(body, IsVersionChar)
    ensures TrimSpace(front + (body + back)) == body
  {
    WhiteIsSpace(front);
    WhiteIsSpace(back);
    assert IsVersionChar(body[0]) && IsVersionChar(body[|body| - 1]);
    RunAppend(front, body + back, IsSpace);
    TrimmedRight(body, back);
  }

  /** The text of the pieces and of the revision. */
  function BodyText(ps: seq<Piece>, revision: string): string {
    if revision == "" then Spell(ps) else Spell(ps) + "-" + revision
  }

  lemma {:induction false} ParseRevised(s: string, t: string, body: string, digits: string)
    requires TrimSpace(s) == t && t != "" && HasRevisionSuffix(t)
    requires IsNumeral(digits) && TailDigits(t) == |digits|
    requires t[|t| - |digits|..] == digits && t[..|t| - |digits| - 1] == body
    ensures Parse(s) == ParseBody(s, body, DecimalValue(digits), true)
  {
  }

  lemma {:induction false} ParsePlain(s: string, t: string)
    requires TrimSpace(s) == t && t != "" && !HasRevisionSuffix(t)
    ensures Parse(s) == ParseBody(s, t, 0, false)
  {
  }

  /** A hyphen and digits at the end. */
  ghost predicate RevisionTail(t: string) {
    exists body, digits :: t == body + "-" + digits && DigitsOnly(digits)
  }

  lemma {:induction false} TailIsSuffix(t: string)
    requires '\n' !in t
    ensures RevisionTail(t) <==> HasRevisionSuffix(t)
  {
    if RevisionTail(t) {
      var body, digits :| t == body + "-" + digits && DigitsOnly(digits);
      assert All(digits, IsDigit);
      TailDigitsAre(body + "-", digits);
      assert t[|t| - |digits| - 1] == '-';
    }
    if HasRevisionSuffix(t) {
      var n := TailDigits(t);
      SuffixParts(t, n);
      assert DigitsOnly(t[|t| - n..]);
    }
  }

  lemma {:induction false} SuffixParts(t: string, n: nat)
    requires 0 < n < |t| && t[|t| - n - 1] == '-' && All(t[|t| - n..], IsDigit)
    ensures t == t[..|t| - n - 1] + "-" + t[|t| - n..] && DigitsOnly(t[|t| - n..])
  {
    var digits := t[|t| - n..];
    forall i | 0 <= i < |digits| ensures '0' <= digits[i] <= '9' {
      assert IsDigit(digits[i]);
    }
  }

  /** A text without numbers and words counts as zero. */
  function Components(toks: seq<Token>): seq<real>
    requires WordsOk(toks)
  {
    if toks == [] then [0.0] else Worth(toks)
  }

  function VersionFrom(raw: string, toks: seq<Token>, revision: string): Version
    requires WordsOk(toks) && All(revision, IsDigit)
  {
    Version(raw, Components(toks), DecimalValue(revision), revision != "", Word("scm") in toks, Word("dev") in toks)
  }

  lemma {:induction false} BodyBack(raw: string, ps: seq<Piece>, revision: nat, hasRevision: bool)
    requires Written(ps) && AllSmall(ps)
    ensures
      var toks := Meant(ps);
      ParseBody(raw, Spell(ps), revision, hasRevision)
      == Ok(Version(raw, Components(toks), revision, hasRevision, Word("scm") in toks, Word("dev") in toks))
  {
    WrittenIsSpelled(ps);
    MeantIs(ps);
    SpellingTokens(ps);
    SlotsAreWorth(Meant(ps));
  }

  /** A version as written: space, numbers and words, the revision, and space.  Without a
      revision the text does not end like one. */
  ghost predicate Proper(front: string, ps: seq<Piece>, revision: string, back: string) {
    && WhiteOnly(front) && WhiteOnly(back) && Written(ps) && AllSmall(ps) && Small(Piece(revision, ""))
    && (if revision == "" then ps != [] && !RevisionTail(Spell(ps)) else DigitsOnly(revision))
  }

  lemma {:induction false} TextShape(ps: seq<Piece>, revision: string)
    requires Written(ps) && AllSmall(ps) && Small(Piece(revision, ""))
    requires if revision == "" then ps != [] else DigitsOnly(revision)
    ensures All(Spell(ps), IsVersionChar) && All(revision, IsDigit) && (revision != "" ==> IsNumeral(revision))
    ensures BodyText(ps, revision) != "" && All(BodyText(ps, revision), IsVersionChar)
  {
    WrittenIsSpelled(ps);
    SpellChars(ps);
    PieceIs(Piece(revision, ""));
  }

  lemma {:induction false} PlainReads(t: string, ps: seq<Piece>)
    requires Written(ps) && AllSmall(ps) && !RevisionTail(Spell(ps)) && All(Spell(ps), IsVersionChar)
    requires TrimSpace(t) == Spell(ps) && Spell(ps) != ""
    ensures Parse(t) == Ok(VersionFrom(t, Meant(ps), ""))
  {
    NewlineIsNoVersionChar(Spell(ps));
    TailIsSuffix(Spell(ps));
    ParsePlain(t, Spell(ps));
    BodyBack(t, ps, 0, false);
  }

  lemma {:induction false} RevisedReads(t: string, ps: seq<Piece>, revision: string)
    requires Written(ps) && AllSmall(ps) && IsNumeral(revision) && All(Spell(ps), IsVersionChar)
    requires TrimSpace(t) == Spell(ps) + "-" + revision
    ensures Parse(t) == Ok(VersionFrom(t, Meant(ps), revision))
  {
    RevisionSplit(Spell(ps), revision);
    ParseRevised(t, Spell(ps) + "-" + revision, Spell(ps), revision);
    BodyBack(t, ps, DecimalValue(revision), true);
  }

  /** A version reads as its numbers and words are worth, with the revision behind the last
      hyphen, whatever separates them and whatever space surrounds them. */
  lemma {:induction false} VersionBack(front: string, ps: seq<Piece>, revision: string, back: string)
    requires Proper(front, ps, revision, back)
    ensures All(revision, IsDigit)
    ensures var t := front + (BodyText(ps, revision) + back);
      Parse(t) == Ok(VersionFrom(t, Meant(ps), revision))
  {
    var t := front + (BodyText(ps, revision) + back);
    TextShape(ps, revision);
    Trimmed(front, BodyText(ps, revision), back);
    if revision == "" {
      PlainReads(t, ps);
    } else {
      RevisedReads(t, ps, revision);
    }
  }

  // ---- what is read at all ---------------------------------------------------

  /** The piece a text begins with, and the text behind it. */
  ghost predicate BeginsWith(t: string, p: Piece, rest: string, tok: Token) {
    && SeparatorsOnly(p.sep) && t == p.text + (p.sep + rest) && |rest| < |t|
    && (if tok.Number? then DigitsOnly(p.text) && All(p.text, IsDigit) && tok.n == DecimalValue(p.text) <= LARGEST
        else LettersOnly(p.text) && tok.w == p.text)
    && (p.sep == "" && rest != "" ==> if tok.Number? then !IsDigit(rest[0]) else !IsLetter(rest[0]))
  }

  lemma {:induction false} SeparatorsRun(t: string)
    ensures var n := Run(t, IsSeparator); SeparatorsOnly(t[..n]) && t == t[..n] + SkipSeparators(t)
  {
    var sep := t[..Run(t, IsSeparator)];
    forall i | 0 <= i < |sep| ensures sep[i] == '.' || sep[i] == '-' || sep[i] == '_' {
      assert IsSeparator(sep[i]);
    }
  }

  lemma {:induction false} DigitsRun(t: string)
    requires Run(t, IsDigit) > 0
    ensures var n := Run(t, IsDigit);
      DigitsOnly(t[..n]) && All(t[..n], IsDigit) && t == t[..n] + t[n..] && (t[n..] != "" ==> !IsDigit(t[n..][0]))
  {
    var d := t[..Run(t, IsDigit)];
    forall i | 0 <= i < |d| ensures '0' <= d[i] <= '9' && IsDigit(d[i]) {
      assert IsDigit(t[i]);
    }
  }

  lemma {:induction false} LettersRun(t: string)
    requires Run(t, IsLetter) > 0
    ensures var n := Run(t, IsLetter);
      LettersOnly(t[..n]) && t == t[..n] + t[n..] && (t[n..] != "" ==> !IsLetter(t[n..][0]))
  {
    var d := t[..Run(t, IsLetter)];
    forall i | 0 <= i < |d| ensures 'a' <= d[i] <= 'z' || 'A' <= d[i] <= 'Z' {
      assert IsLetter(t[i]);
    }
  }

  lemma {:induction false} TokenOnly(t: string) returns (p: Piece, rest: string)
    requires t != "" && NextToken(t).Ok?
    ensures BeginsWith(t, p, NextToken(t).value.1, NextToken(t).value.0) && rest == NextToken(t).value.1
  {
    var number := Run(t, IsDigit) > 0;
    var n := if number then Run(t, IsDigit) else Run(t, IsLetter);
    if number { DigitsRun(t); } else { LettersRun(t); }
    var behind := t[n..];
    SeparatorsRun(behind);
    rest := SkipSeparators(behind);
    p := Piece(t[..n], behind[..Run(behind, IsSeparator)]);
  }

  /** What is read is numbers and words. */
  lemma {:induction false} TokensOnly(t: string) returns (ps: seq<Piece>)
    requires Tokens(t).Ok?
    ensures Written(ps) && AllSmall(ps) && t == Spell(ps) && Meant(ps) == Tokens(t).value
    ensures (t == "" <==> ps == []) && (ps != [] ==> ps[0].text != "" && ps[0].text[0] == t[0])
    decreases |t|
  {
    if t == "" {
      ps := [];
    } else {
      var p, rest := TokenOnly(t);
      var more := TokensOnly(rest);
      ps := [p] + more;
      PieceJoins(t, p, rest, NextToken(t).value.0, more);
    }
  }

  lemma {:induction false} PieceJoins(t: string, p: Piece, rest: string, tok: Token, ps: seq<Piece>)
    requires BeginsWith(t, p, rest, tok) && Written(ps) && AllSmall(ps) && rest == Spell(ps)
    requires (rest == "" <==> ps == []) && (ps != [] ==> ps[0].text != "" && ps[0].text[0] == rest[0])
    ensures Written([p] + ps) && AllSmall([p] + ps) && t == Spell([p] + ps) && Meant([p] + ps) == [tok] + Meant(ps)
    ensures p.text != "" && p.text[0] == t[0]
  {
    var all := [p] + ps;
    assert all[1..] == ps && all[0] == p;
    if ps != [] && p.sep == "" {
      assert DigitsOnly(ps[0].text) || LettersOnly(ps[0].text);
      assert IsDigit(rest[0]) <==> DigitsOnly(ps[0].text);
    }
    forall i | 0 < i < |all|
      ensures all[i - 1].sep != "" || (DigitsOnly(all[i - 1].text) <==> LettersOnly(all[i].text))
    {
      if i > 1 { assert all[i - 1] == ps[i - 2] && all[i] == ps[i - 1]; }
    }
  }

  lemma {:induction false} RightOnly(t: string)
    ensures var r := TrimRight(t); |r| <= |t| && t == r + t[|r|..] && WhiteOnly(t[|r|..])
  {
    if t != "" && IsSpace(t[|t| - 1]) {
      RightOnly(t[..|t| - 1]);
      var r := TrimRight(t);
      assert t[|r|..] == t[..|t| - 1][|r|..] + [t[|t| - 1]];
      assert t[|t| - 1] as int in {9, 10, 11, 12, 13, 32};
    }
  }

  lemma {:induction false} TrimOnly(s: string) returns (front: string, back: string)
    ensures WhiteOnly(front) && WhiteOnly(back) && s == front + (TrimSpace(s) + back)
  {
    var n := Run(s, IsSpace);
    var u := s[n..];
    front := s[..n];
    forall i | 0 <= i < n ensures front[i] as int in {9, 10, 11, 12, 13, 32} {
      assert IsSpace(s[i]);
    }
    RightOnly(u);
    back := u[|TrimSpace(s)|..];
  }

  /** s is a version as written, and means v. */
  ghost predicate Spells(s: string, front: string, ps: seq<Piece>, revision: string, back: string, v: Version) {
    && Proper(front, ps, revision, back) && s == front + (BodyText(ps, revision) + back)
    && All(revision, IsDigit) && v == VersionFrom(s, Meant(ps), revision)
  }

  ghost predicate IsVersion(s: string, v: Version) {
    exists front, ps, revision, back :: Spells(s, front, ps, revision, back, v)
  }

  lemma {:induction false} PlainOnly(s: string) returns (front: string, ps: seq<Piece>, back: string)
    requires Parse(s).Ok? && !HasRevisionSuffix(TrimSpace(s))
    ensures Spells(s, front, ps, "", back, Parse(s).value)
  {
    var t := TrimSpace(s);
    front, back := TrimOnly(s);
    ps := TokensOnly(t);
    TextShape(ps, "");
    NewlineIsNoVersionChar(t);
    TailIsSuffix(t);
    BodyBack(s, ps, 0, false);
  }

  lemma {:induction false} RevisionRead(s: string, t: string, n: nat)
    requires TrimSpace(s) == t && t != "" && HasRevisionSuffix(t) && n == TailDigits(t) && Parse(s).Ok?
    ensures DecimalValue(t[|t| - n..]) <= MAX_INT
    ensures Parse(s) == ParseBody(s, t[..|t| - n - 1], DecimalValue(t[|t| - n..]), true)
  {
  }

  lemma {:induction false} RevisionParts(t: string) returns (body: string, digits: string)
    requires HasRevisionSuffix(t)
    ensures
      var n := TailDigits(t);
      && t == body + "-" + digits && DigitsOnly(digits) && All(digits, IsDigit)
      && body == t[..|t| - n - 1] && digits == t[|t| - n..]
  {
    var n := TailDigits(t);
    SuffixParts(t, n);
    body, digits := t[..|t| - n - 1], t[|t| - n..];
  }

  lemma {:induction false} RevisedIs(s: string, t: string) returns (body: string, digits: string)
    requires t == TrimSpace(s) && t != "" && HasRevisionSuffix(t) && Parse(s).Ok?
    ensures t == body + "-" + digits && DigitsOnly(digits) && All(digits, IsDigit) && DecimalValue(digits) <= LARGEST
    ensures Parse(s) == ParseBody(s, body, DecimalValue(digits), true)
  {
    body, digits := RevisionParts(t);
    RevisionRead(s, t, TailDigits(t));
  }

  lemma {:induction false} BodyTokens(s: string, body: string, revision: nat)
    requires ParseBody(s, body, revision, true).Ok?
    ensures Tokens(body).Ok?
  {
  }

  lemma {:induction false} RevisedOnly(s: string) returns (front: string, ps: seq<Piece>, revision: string, back: string)
    requires Parse(s).Ok? && HasRevisionSuffix(TrimSpace(s))
    ensures Spells(s, front, ps, revision, back, Parse(s).value)
  {
    var body;
    body, revision := RevisedIs(s, TrimSpace(s));
    front, back := TrimOnly(s);
    BodyTokens(s, body, DecimalValue(revision));
    ps := TokensOnly(body);
    BodyBack(s, ps, DecimalValue(revision), true);
  }

  /** A text is parsed if and only if it is a version as written, and then as what that
      means. */
  lemma {:induction false} ParsesExactly(s: string, v: Version)
    ensures Parse(s) == Ok(v) <==> IsVersion(s, v)
  {
    if Parse(s).Ok? {
      if HasRevisionSuffix(TrimSpace(s)) {
        var front, ps, revision, back := RevisedOnly(s);
      } else {
        var front, ps, back := PlainOnly(s);
      }
    }
    if IsVersion(s, v) {
      var front, ps, revision, back :| Spells(s, front, ps, revision, back, v);
      VersionBack(front, ps, revision, back);
    }
  }

  /** A number beyond the largest is refused, in the body and in the revision. */
  lemma {:induction false} LargeIsRefused(digits: string, body: string)
    requires DigitsOnly(digits) && All(digits, IsDigit) && DecimalValue(digits) > LARGEST && All(body, IsVersionChar)
    ensures Parse(digits).Bad? && Parse(body + "-" + digits).Bad?
  {
    assert All(digits, IsVersionChar);
    NewlineIsNoVersionChar(digits);
    assert '-' !in digits;
    PlainBack(digits);
    RunIs(digits, IsDigit, |digits|);
    assert digits[..|digits|] == digits;
    RevisionSplit(body, digits);
  }

  // ---- the order of words ----------------------------------------------------

  /** Between two versions that differ in the number behind the same word the lower number
      comes first. */
  lemma {:induction false} NumberedOrder(base: seq<nat>, w: string, m: nat, n: nat)
    requires w != ""
    ensures
      var toks := NumberTokens(base) + [Word(w)];
      && WordsOk(toks + [Number(m)]) && WordsOk(toks + [Number(n)])
      && (m < n <==> PadLess(Worth(toks + [Number(m)]), Worth(toks + [Number(n)])))
  {
    WordedWorth(base, w, m);
    WordedWorth(base, w, n);
    var xs, ys := Reals(base) + [WordWorth(w) + m as real / 100_000.0], Reals(base) + [WordWorth(w) + n as real / 100_000.0];
    LastDecides(Reals(base), WordWorth(w) + m as real / 100_000.0, WordWorth(w) + n as real / 100_000.0);
  }

  lemma {:induction false} LastDecides(base: seq<real>, x: real, y: real)
    ensures PadLess(base + [x], base + [y]) <==> x < y
  {
    var xs, ys := base + [x], base + [y];
    assert forall j: nat :: j != |base| ==> At(xs, j) == At(ys, j);
    if x < y { assert SmallerAt(xs, ys, |base|); }
    if PadLess(xs, ys) {
      var i: nat :| SmallerAt(xs, ys, i);
      assert i == |base|;
    }
  }

  lemma {:induction false} NumbersWorth(base: seq<nat>)
    ensures Worth(NumberTokens(base)) == Reals(base)
    ensures base != [] ==> !NumberTokens(base)[|NumberTokens(base)| - 1].Word?
  {
    NumberSlots(base, []);
    assert NumberTokens(base) + [] == NumberTokens(base) && Reals(base) + [] == Reals(base);
    SlotsAreWorth(NumberTokens(base));
    if base != [] {
      var toks := NumberTokens(base);
      assert toks[|toks| - 1] in toks;
    }
  }

  lemma {:induction false} WorthLast(toks: seq<Token>, tok: Token)
    requires WordsOk(toks) && (tok.Word? ==> tok.w != "")
    ensures WordsOk(toks + [tok])
    ensures Worth(toks + [tok]) == Added(Worth(toks), toks != [] && toks[|toks| - 1].Word?, tok)
  {
    assert (toks + [tok])[..|toks|] == toks;
  }

  lemma {:induction false} WordedWorth(base: seq<nat>, w: string, n: nat)
    requires w != ""
    ensures
      var toks := NumberTokens(base) + [Word(w)] + [Number(n)];
      WordsOk(toks) && Worth(toks) == Reals(base) + [WordWorth(w) + n as real / 100_000.0]
  {
    var toks := NumberTokens(base);
    NumbersWorth(base);
    WorthLast(toks, Word(w));
    WorthLast(toks + [Word(w)], Number(n));
    assert toks == [] ==> base == [];
  }
}
