/** When a written table reads back as itself. */
module LuaFaithful {
  import opened Text
  import opened LuaValue
  import opened LuaText
  import opened LuaGrammar
  import opened LuaRoundTrip
  import SortedKeys

  // ---- whole files ---------------------------------------------------------

  /** One top-level assignment and whatever follows it. */
  lemma {:induction false} AssignmentBack(k: string, v: Value, more: string, out: map<string, Value>)
    requires IsPlainKey(k) && SkipSpace(more) == more
    ensures
      var r := ReadFile(k + (" = " + (ValueText(v, 0) + ("\n" + more))), out);
      if Readable(v) then r == ReadFile(more, out[k := ReadBack(v)]) else r.Err? && Blames(v, r.error)
  {
    var text := ValueText(v, 0) + ("\n" + more);
    var behind := " = " + text;
    var t := k + behind;
    RunAppend(k, behind, IsIdentPart);
    ValueStart(v, 0, "\n" + more);
    AssignBack(text);
    ValueBack(v, 0, "\n" + more);
    SkipBlanks("\n", more);
    assert t[..|k|] == k && t[|k|..] == behind;
  }

  lemma {:induction false} AssignmentsSplit(es: seq<Entry>)
    requires forall e :: e in es ==> e.key.Str?
    requires es != []
    ensures es[0] in es && (forall e :: e in es <==> e == es[0] || e in es[1..])
    ensures AssignmentsText(es)
         == es[0].key.s + (" = " + (ValueText(es[0].value, 0) + ("\n" + AssignmentsText(es[1..]))))
  {
  }

  lemma {:induction false} AssignmentsStart(es: seq<Entry>)
    requires forall e :: e in es ==> e.key.Str? && IsPlainKey(e.key.s)
    ensures SkipSpace(AssignmentsText(es)) == AssignmentsText(es)
  {
    if es != [] {
      AssignmentsSplit(es);
    }
  }

  lemma {:induction false} StrPartAppend(es: seq<Entry>, e: Entry)
    requires e.key.Str?
    ensures StrPart(es + [e]) == StrPart(es)[e.key.s := e.value]
  {
    assert (es + [e])[..|es|] == es;
  }

  lemma {:induction false} AssignmentsBack(v: Value, es: seq<Entry>, acc: seq<Entry>)
    requires forall e :: e in es ==> e.value < v && e.key.Str? && IsPlainKey(e.key.s)
    ensures
      var r := ReadFile(AssignmentsText(es), StrPart(acc));
      if forall e :: e in es ==> Readable(e.value)
      then r == Ok(Table(map[], StrPart(acc + EntriesBack(v, es, 1))))
      else r.Err? && BlamesAny(es, r.error)
    decreases |es|
  {
    if es == [] {
      assert acc + EntriesBack(v, es, 1) == acc;
    } else {
      var e := es[0];
      AssignmentsSplit(es);
      AssignmentsStart(es[1..]);
      AssignmentBack(e.key.s, e.value, AssignmentsText(es[1..]), StrPart(acc));
      if Readable(e.value) {
        PlainHasNoNewline(e.key.s);
        StrPartAppend(acc, EntryBackAs(e, 1));
        AssignmentsBack(v, es[1..], acc + [EntryBackAs(e, 1)]);
        EntriesBackSplit(v, es, acc, 1);
      }
    }
  }

  /** Parse after Write, for every table Write accepts: the tree read back, or an error,
      which is a true one when all integers are in the int64 range. */
  lemma {:induction false} FileBack(v: Value)
    requires Writable(v)
    ensures Readable(v) ==> Read(FileText(v)) == Ok(ReadBack(v))
    ensures !Readable(v) ==> Read(FileText(v)).Err? && Blames(v, Read(FileText(v)).error)
  {
    var es := RecEntries(v.rec);
    assert Entries(v) == es;
    forall e | e in es ensures e.value < v && e.key.Str? && IsPlainKey(e.key.s) {
      EntryFrom(v, e);
    }
    AssignmentsStart(es);
    AssignmentsBack(v, es, []);
    var back := EntriesBack(v, es, 1);
    assert [] + back == back;
    EntriesBackAt(v, es, 1, 0);
    NoNumPart(back);
    ReadableEntries(v);
    FittingEntries(v);
    forall e | e in es ensures EntryReadable(e) <==> Readable(e.value) {
    }
  }

  // ---- the tables that survive ---------------------------------------------

  /** No carriage returns, no whole numbers held as float64, and array slots numbered
      from 1 without gaps. */
  ghost predicate Faithful(v: Value)
    decreases v
  {
    match v
    case Str(s) => '\r' !in s
    case Dec(u) => u % UNIT != 0
    case Table(num, rec) =>
      && (forall k :: k in num <==> 1 <= k <= |num|)
      && (forall k :: k in num ==> Faithful(num[k]))
      && (forall k :: k in rec ==> '\r' !in k && Faithful(rec[k]))
    case _ => true
  }

  lemma {:induction false} StrBackKeeps(s: string)
    ensures '\r' !in StrBack(s)
    ensures StrBack(s) == s <==> '\r' !in s
  {
  }

  /** The entry a string key was read from. */
  lemma {:induction false} StrPartSource(es: seq<Entry>, k: string) returns (i: nat)
    requires k in StrPart(es)
    ensures i < |es| && es[i].key == Str(k) && StrPart(es)[k] == es[i].value
  {
    var e := es[|es| - 1];
    if e.key == Str(k) {
      i := |es| - 1;
    } else {
      i := StrPartSource(es[..|es| - 1], k);
    }
  }

  lemma {:induction false} StrPartHas(es: seq<Entry>, i: nat)
    requires i < |es| && es[i].key.Str?
    ensures es[i].key.s in StrPart(es)
  {
    if i < |es| - 1 {
      StrPartHas(es[..|es| - 1], i);
    }
  }

  lemma {:induction false} NumPartSource(es: seq<Entry>, k: int) returns (i: nat)
    requires k in NumPart(es)
    ensures i < |es| && es[i].key == Int(k) && NumPart(es)[k] == es[i].value
  {
    var e := es[|es| - 1];
    if e.key == Int(k) {
      i := |es| - 1;
    } else {
      i := NumPartSource(es[..|es| - 1], k);
    }
  }

  lemma {:induction false} NumPartHas(es: seq<Entry>, i: nat)
    requires i < |es| && es[i].key.Int?
    ensures es[i].key.n in NumPart(es)
  {
    if i < |es| - 1 {
      NumPartHas(es[..|es| - 1], i);
    }
  }

  /** The value under the k-th smallest integer key. */
  ghost function Slot(num: map<int, Value>, k: int): (v: Value)
    requires 1 <= k <= |num|
    ensures exists j :: j in num && num[j] == v
  {
    var ks := SortedKeys.Ints(num.Keys);
    assert ks[k - 1] in ks;
    num[ks[k - 1]]
  }

  lemma {:induction false} NumEntryAt(v: Value, k: int)
    requires v.Table? && 1 <= k <= |v.num|
    ensures k - 1 < |Entries(v)| && Entries(v)[k - 1].value == Slot(v.num, k)
  {
    assert Entries(v)[k - 1] == NumEntries(v.num)[k - 1];
  }

  lemma {:induction false} NumBackAt(v: Value, k: int)
    requires v.Table?
    ensures k in ReadBack(v).num <==> 1 <= k <= |v.num|
    ensures k in ReadBack(v).num ==> ReadBack(v).num[k] == ReadBack(Slot(v.num, k))
  {
    var back := EntriesBack(v, Entries(v), 1);
    EntriesSplit(v);
    EntriesBackAt(v, Entries(v), 1, |v.num|);
    if k in NumPart(back) {
      var i := NumPartSource(back, k);
      NumEntryAt(v, k);
    }
    if 1 <= k <= |v.num| {
      NumPartHas(back, k - 1);
    }
  }

  /** Array slots of a read-back table: 1..n in the order of the old keys. */
  lemma {:induction false} NumBack(v: Value)
    requires v.Table?
    ensures forall k :: k in ReadBack(v).num <==> 1 <= k <= |v.num|
    ensures forall k :: k in ReadBack(v).num ==> ReadBack(v).num[k] == ReadBack(Slot(v.num, k))
    ensures |ReadBack(v).num| == |v.num|
  {
    forall k
      ensures k in ReadBack(v).num <==> 1 <= k <= |v.num|
      ensures k in ReadBack(v).num ==> ReadBack(v).num[k] == ReadBack(Slot(v.num, k))
    {
      NumBackAt(v, k);
    }
    DenseCount(ReadBack(v).num.Keys, |v.num|);
  }

  lemma {:induction false} DenseCount(s: set<int>, n: nat)
    requires forall x :: x in s <==> 1 <= x <= n
    ensures |s| == n
  {
    if n > 0 {
      DenseCount(s - {n}, n - 1);
    } else {
      assert forall x :: x !in s;
      assert s == {};
    }
  }

  lemma {:induction false} DenseNumBack(v: Value)
    requires v.Table? && forall k :: k in v.num <==> 1 <= k <= |v.num|
    ensures forall k :: k in ReadBack(v).num <==> k in v.num
    ensures forall k :: k in v.num ==> ReadBack(v).num[k] == ReadBack(v.num[k])
  {
    NumBack(v);
    var s := v.num.Keys;
    assert |s| == |v.num| && forall x :: x in s <==> 1 <= x < 1 + |s|;
    SortedKeys.DenseInts(s, 1);
    forall k | k in v.num ensures ReadBack(v).num[k] == ReadBack(v.num[k]) {
      assert SortedKeys.Ints(s)[k - 1] == k;
    }
  }

  /** String keys of a read-back table come from old keys. */
  lemma {:induction false} RecBackSource(v: Value, k: string) returns (j: string)
    requires v.Table? && k in ReadBack(v).rec
    ensures j in v.rec && k == StrBack(j) && ReadBack(v).rec[k] == ReadBack(v.rec[j])
  {
    var es := Entries(v);
    var back := EntriesBack(v, es, 1);
    EntriesSplit(v);
    EntriesBackAt(v, es, 1, |v.num|);
    var i := StrPartSource(back, k);
    EntryFrom(v, es[i]);
    j := es[i].key.s;
  }

  lemma {:induction false} RecBackHas(v: Value, k: string)
    requires v.Table? && k in v.rec
    ensures StrBack(k) in ReadBack(v).rec
  {
    var es := Entries(v);
    var back := EntriesBack(v, es, 1);
    EntriesSplit(v);
    EntriesBackAt(v, es, 1, |v.num|);
    EntryOf(v);
    var i :| 0 <= i < |es| && es[i] == Entry(Str(k), v.rec[k]);
    StrPartHas(back, i);
  }

  /** Reading gives the written table exactly when it is faithful. */
  lemma {:induction false} FaithfulExactly(v: Value)
    ensures ReadBack(v) == v <==> Faithful(v)
    decreases v
  {
    if v.Str? {
      StrBackKeeps(v.s);
    } else if v.Table? {
      forall k | k in v.num ensures ReadBack(v.num[k]) == v.num[k] <==> Faithful(v.num[k]) {
        FaithfulExactly(v.num[k]);
      }
      forall k | k in v.rec ensures ReadBack(v.rec[k]) == v.rec[k] <==> Faithful(v.rec[k]) {
        FaithfulExactly(v.rec[k]);
      }
      if ReadBack(v) == v { FaithfulIfSame(v); }
      if Faithful(v) { SameIfFaithful(v); }
    }
  }

  lemma {:induction false} FaithfulIfSame(v: Value)
    requires v.Table? && ReadBack(v) == v
    requires forall k :: k in v.num ==> (ReadBack(v.num[k]) == v.num[k] <==> Faithful(v.num[k]))
    requires forall k :: k in v.rec ==> (ReadBack(v.rec[k]) == v.rec[k] <==> Faithful(v.rec[k]))
    ensures Faithful(v)
  {
    NumBack(v);
    DenseNumBack(v);
    KeysWithoutReturns(v);
    forall k | k in v.rec ensures Faithful(v.rec[k]) {
      forall j | j in v.rec && StrBack(j) == k ensures j == k { StrBackKeeps(j); }
      StrBackKeeps(k);
      OnlySource(v, k);
    }
  }

  lemma {:induction false} KeysWithoutReturns(v: Value)
    requires v.Table?
    ensures forall k :: k in ReadBack(v).rec ==> '\r' !in k
  {
    forall k | k in ReadBack(v).rec ensures '\r' !in k {
      var j := RecBackSource(v, k);
      StrBackKeeps(j);
    }
  }

  /** A key without carriage returns keeps its value when no other key collides. */
  lemma {:induction false} OnlySource(v: Value, k: string)
    requires v.Table? && k in v.rec
    requires forall j :: j in v.rec && StrBack(j) == k ==> j == k
    ensures StrBack(k) == k ==> k in ReadBack(v).rec && ReadBack(v).rec[k] == ReadBack(v.rec[k])
  {
    RecBackHas(v, k);
    if StrBack(k) == k {
      var j := RecBackSource(v, k);
    }
  }

  lemma {:induction false} SameIfFaithful(v: Value)
    requires v.Table? && Faithful(v)
    requires forall k :: k in v.num ==> ReadBack(v.num[k]) == v.num[k]
    requires forall k :: k in v.rec ==> ReadBack(v.rec[k]) == v.rec[k]
    ensures ReadBack(v) == v
  {
    DenseNumBack(v);
    SameRec(v);
    SameTable(ReadBack(v), v);
  }

  lemma {:induction false} SameTable(v: Value, w: Value)
    requires v.Table? && w.Table? && v.rec == w.rec
    requires forall k :: k in v.num <==> k in w.num
    requires forall k :: k in w.num ==> v.num[k] == w.num[k]
    ensures v == w
  {
    forall k | k in v.num ensures k in w.num && v.num[k] == w.num[k] {
    }
    forall k | k in w.num ensures k in v.num {
    }
  }

  /** String keys without carriage returns survive, each with its own value. */
  lemma {:induction false} RecBack(v: Value)
    requires v.Table?
    requires forall k :: k in v.rec ==> '\r' !in k
    ensures ReadBack(v).rec.Keys == v.rec.Keys
    ensures forall k :: k in v.rec ==> ReadBack(v).rec[k] == ReadBack(v.rec[k])
  {
    var w := ReadBack(v);
    forall k | k in v.rec ensures k in w.rec && w.rec[k] == ReadBack(v.rec[k]) {
      forall j | j in v.rec && StrBack(j) == k ensures j == k { StrBackKeeps(j); }
      StrBackKeeps(k);
      OnlySource(v, k);
    }
    forall k | k in w.rec ensures k in v.rec {
      var j := RecBackSource(v, k);
      StrBackKeeps(j);
    }
  }

  lemma {:induction false} SameRec(v: Value)
    requires v.Table?
    requires forall k :: k in v.rec ==> '\r' !in k && ReadBack(v.rec[k]) == v.rec[k]
    ensures ReadBack(v).rec == v.rec
  {
    RecBack(v);
  }

  /** What was read is faithful. */
  lemma {:induction false} ReadBackFaithful(v: Value)
    ensures Faithful(ReadBack(v))
    decreases v
  {
    if v.Str? {
      StrBackKeeps(v.s);
    } else if v.Table? {
      var w := ReadBack(v);
      NumBack(v);
      KeysWithoutReturns(v);
      forall k | k in w.num ensures Faithful(w.num[k]) {
        var j :| j in v.num && v.num[j] == Slot(v.num, k);
        ReadBackFaithful(v.num[j]);
      }
      forall k | k in w.rec ensures Faithful(w.rec[k]) {
        var j := RecBackSource(v, k);
        ReadBackFaithful(v.rec[j]);
      }
    }
  }

  /** What was read can be written and read again. */
  lemma {:induction false} ReadBackReadable(v: Value)
    requires Readable(v)
    ensures Readable(ReadBack(v))
    ensures MistakenForKey(ReadBack(v)) ==> MistakenForKey(v)
    decreases v
  {
    if v.Table? {
      var w := ReadBack(v);
      NumBack(v);
      forall k | k in w.num ensures Readable(w.num[k]) && !MistakenForKey(w.num[k]) {
        var j :| j in v.num && v.num[j] == Slot(v.num, k);
        ReadBackReadable(v.num[j]);
      }
      forall k | k in w.rec ensures Readable(w.rec[k]) {
        var j := RecBackSource(v, k);
        ReadBackReadable(v.rec[j]);
      }
    }
  }

  // ---- main results --------------------------------------------------------

  /** Parse(Write(v)) gives v back exactly when v is readable and faithful. */
  lemma {:induction false} WriteThenRead(v: Value)
    requires Writable(v)
    ensures Read(FileText(v)) == Ok(v) <==> Readable(v) && Faithful(v)
  {
    FileBack(v);
    FaithfulExactly(v);
  }

  /** One write and read reaches a fixed point: what was read is written, byte for
      byte the same ever after, and read back as itself. */
  lemma {:induction false} ReadIsStable(v: Value, w: Value)
    requires Writable(v) && Read(FileText(v)) == Ok(w)
    ensures Writable(w) && Read(FileText(w)) == Ok(w)
  {
    FileBack(v);
    ReadBackFaithful(v);
    ReadBackReadable(v);
    NumBack(v);
    forall k | k in w.rec ensures IsPlainKey(k) {
      var j := RecBackSource(v, k);
      PlainHasNoNewline(j);
    }
    assert w.num == map[];
    WriteThenRead(w);
  }
}
