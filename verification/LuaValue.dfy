/** The trees that manif.Write prints and manif.Parse builds. */
module LuaValue {
  import opened Text
  import SortedKeys

  /** Decimals count in units of 1/100000, the resolution of version components. */
  const UNIT := 100_000

  /** The numbers that formatNumber prints in full and without an exponent: whole ones
      below 10^16, which it prints as integers, and others with at most nine digits
      before the point, which "%.14g" prints. */
  predicate InDecimals(u: int) {
    if u % UNIT == 0 then -1_000_000_000_000_000_000_000 < u < 1_000_000_000_000_000_000_000
    else -100_000_000_000_000 < u <= -10 || 10 <= u < 100_000_000_000_000
  }

  type decimal = u: int | InDecimals(u)

  /** formatNumber on decimals: whole ones print like integers. */
  function PositiveText(m: nat): string {
    if m % UNIT == 0 then Decimal(m / UNIT)
    else Decimal(m / UNIT) + ("." + UnitFraction(m % UNIT))
  }

  function UnitFraction(f: nat): (t: string)
    requires f < UNIT
    ensures |t| <= 5 && All(t, IsDigit)
    ensures f > 0 ==> t != ""
  {
    assert Pow10(5) == UNIT;
    FractionText(f, 5)
  }

  function DropZeros(digits: string): (r: string)
    ensures |r| <= |digits|
    ensures digits != "" && digits[0] != '0' ==> r != ""
  {
    if digits != "" && digits[|digits| - 1] == '0' then DropZeros(digits[..|digits| - 1]) else digits
  }

  /** The digits of m without trailing zeros, a point behind the first, and the exponent. */
  function ExponentText(m: nat): string
    requires m >= 1_000_000 * UNIT
  {
    var digits := Decimal(m);
    var short, exponent := DropZeros(digits), |digits| - 6;
    (if |short| <= 1 then short else short[..1] + "." + short[1..])
    + "e+" + (if 0 <= exponent < 10 then "0" else "") + IntText(exponent)
  }

  /** strconv.FormatFloat(k, 'g', -1, 64), which writes an exponent from 10^6 on. */
  function FloatText(u: decimal): string {
    var m := if u < 0 then 0 - u else u;
    (if u < 0 then "-" else "") + if m < 1_000_000 * UNIT then PositiveText(m) else ExponentText(m)
  }

  /** A Go `any` tree seen as Lua data.  Int is an int64, Dec a float64.  A table with only integer keys is the
      writer's []any, one with only string keys its map[string]any, one with both
      its *table (or a map[any]any); the empty table is the empty map. */
  datatype Value =
    | Nil
    | Bool(b: bool)
    | Int(n: int)
    | Dec(u: decimal)
    | Str(s: string)
    | Table(num: map<int, Value>, rec: map<string, Value>)

  /** One table entry: what the writer emits and what the parser collects. */
  datatype Entry = Entry(key: Value, value: Value)

  predicate InInt64(n: int) {
    -0x8000_0000_0000_0000 <= n < 0x8000_0000_0000_0000
  }

  datatype Error =
    | Malformed      // any error wrapping ErrParse
    | FloatLiteral   // a literal for strconv.ParseFloat whose number is no decimal
    | UnexpectedKey  // entriesToValue's panic on a key

  datatype Result<+T> = Ok(value: T) | Err(error: Error) {
    predicate IsFailure() {
      Err?
    }
    function PropagateFailure<U>(): Result<U>
      requires Err?
    {
      Err(error)
    }
    function Extract(): T
      requires Ok?
    {
      value
    }
  }

  // ---- the entries of a table, in the order they are printed --------------

  function NumEntries(num: map<int, Value>): (es: seq<Entry>)
    ensures |es| == |num|
  {
    var ks := SortedKeys.Ints(num.Keys);
    seq(|ks|, i requires 0 <= i < |ks| => assert ks[i] in ks; Entry(Int(ks[i]), num[ks[i]]))
  }

  function RecEntries(rec: map<string, Value>): (es: seq<Entry>)
  {
    var ks := SortedKeys.Strings(rec.Keys);
    seq(|ks|, i requires 0 <= i < |ks| => assert ks[i] in ks; Entry(Str(ks[i]), rec[ks[i]]))
  }

  lemma NumEntriesFrom(num: map<int, Value>, e: Entry)
    requires e in NumEntries(num)
    ensures e.key.Int? && e.key.n in num && e.value == num[e.key.n]
  {
    var ks := SortedKeys.Ints(num.Keys);
    var i :| 0 <= i < |ks| && NumEntries(num)[i] == e;
    assert ks[i] in ks;
  }

  lemma RecEntriesFrom(rec: map<string, Value>, e: Entry)
    requires e in RecEntries(rec)
    ensures e.key.Str? && e.key.s in rec && e.value == rec[e.key.s]
  {
    var ks := SortedKeys.Strings(rec.Keys);
    var i :| 0 <= i < |ks| && RecEntries(rec)[i] == e;
    assert ks[i] in ks;
  }

  lemma EntriesFrom(v: Value)
    requires v.Table?
    ensures forall e :: e in NumEntries(v.num) + RecEntries(v.rec) ==>
      e.value < v && (e.key.Int? || e.key.Str?)
  {
    forall e | e in NumEntries(v.num) + RecEntries(v.rec)
      ensures e.value < v && (e.key.Int? || e.key.Str?)
    {
      if e in NumEntries(v.num) {
        NumEntriesFrom(v.num, e);
      } else {
        RecEntriesFrom(v.rec, e);
      }
    }
  }

  function Entries(v: Value): (es: seq<Entry>)
    requires v.Table?
    ensures forall e :: e in es ==> e.value < v && (e.key.Int? || e.key.Str?)
  {
    EntriesFrom(v);
    NumEntries(v.num) + RecEntries(v.rec)
  }

  // ---- collapsing parsed entries into a table -----------------------------

  predicate HasNum(es: seq<Entry>) {
    exists i :: 0 <= i < |es| && es[i].key.Int?
  }

  predicate HasStr(es: seq<Entry>) {
    exists i :: 0 <= i < |es| && es[i].key.Str?
  }

  predicate MixedKey(key: Value) {
    key.Int? || key.Str?
  }

  predicate PrintableKey(key: Value) {
    key.Int? || key.Str? || key.Dec?
  }

  /** The keys that a table of the entries' shape takes: one with both integer and string
      keys no others, another one floats as well. */
  predicate KeysKnown(es: seq<Entry>) {
    forall i :: 0 <= i < |es| ==> if HasNum(es) && HasStr(es) then MixedKey(es[i].key) else PrintableKey(es[i].key)
  }

  predicate Dense(es: seq<Entry>) {
    forall i :: 0 <= i < |es| ==> es[i].key == Int(i + 1)
  }

  /** Integer-keyed entries, the last one of a repeated key winning. */
  function NumPart(es: seq<Entry>): map<int, Value> {
    if es == [] then map[] else
      var m, e := NumPart(es[..|es| - 1]), es[|es| - 1];
      if e.key.Int? then m[e.key.n := e.value] else m
  }

  /** String-keyed entries, the last one of a repeated key winning. */
  function StrPart(es: seq<Entry>): map<string, Value> {
    if es == [] then map[] else
      var m, e := StrPart(es[..|es| - 1]), es[|es| - 1];
      if e.key.Str? then m[e.key.s := e.value] else m
  }

  function TextKey(key: Value): string
    requires PrintableKey(key)
  {
    match key
    case Str(s) => s
    case Int(n) => IntText(n)
    case Dec(u) => FloatText(u)
  }

  /** All entries under string keys, numbers written out. */
  function TextKeyed(es: seq<Entry>): map<string, Value> {
    if es == [] then map[] else
      var m, e := TextKeyed(es[..|es| - 1]), es[|es| - 1];
      if PrintableKey(e.key) then m[TextKey(e.key) := e.value] else m
  }

  /** What manif/parser.go's entriesToValue returns: a dense array, a mixed
      table, or a string-keyed map. */
  function Collapse(es: seq<Entry>): Result<Value> {
    if HasNum(es) && !HasStr(es) && Dense(es) then
      Ok(Table(NumPart(es), map[]))
    else if !KeysKnown(es) then
      Err(UnexpectedKey)
    else if HasNum(es) && HasStr(es) then
      Ok(Table(NumPart(es), StrPart(es)))
    else
      Ok(Table(map[], TextKeyed(es)))
  }

  /** Some key is neither string nor number, or a float beside an integer and a string
      key. */
  predicate OddKey(es: seq<Entry>) {
    || (exists i :: 0 <= i < |es| && !PrintableKey(es[i].key))
    || (HasNum(es) && HasStr(es) && exists i :: 0 <= i < |es| && es[i].key.Dec?)
  }

  /** Collapsing panics exactly on an odd key. */
  lemma CollapsePanics(es: seq<Entry>)
    ensures Collapse(es) == Err(UnexpectedKey) <==> OddKey(es)
    ensures Collapse(es).Err? ==> Collapse(es) == Err(UnexpectedKey)
  {
  }
}
