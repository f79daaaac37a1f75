/** The part of manif/store.go that stores dependency constraints: parsed versions as
    Lua tables, and back. */
module ConstraintStore {
  import opened LuaValue
  import opened LuaRoundTrip
  import opened Versions
  import opened Constraints
  import opened Rocks
  import opened Tables

  // ---- numbers -------------------------------------------------------------

  /** A version component counted in the decimals of the text form. */
  function Units(c: real): int {
    (c * UNIT as real).Floor
  }

  /** The components that print in full; ParseVersion makes multiples of 1/100000. */
  predicate Printable(c: real) {
    InDecimals(Units(c)) && Units(c) as real / UNIT as real == c
  }

  function ComponentValue(c: real): Value
    requires Printable(c)
  {
    Dec(Units(c))
  }

  /** numToFloat */
  function NumToReal(v: Value): Maybe<real> {
    match v
    case Int(n) => Just(n as real)
    case Dec(u) => Just(u as real / UNIT as real)
    case _ => Nothing
  }

  lemma {:induction false} NumberBlind(v: Value)
    ensures NumToReal(Normal(v)) == NumToReal(v)
  {
    if v.Dec? && v.u % UNIT == 0 {
      assert v.u == v.u / UNIT * UNIT;
      assert v.u as real == (v.u / UNIT) as real * UNIT as real;
    }
  }

  /** The conversion int(f): toward zero. */
  function Truncate(r: real): int {
    if r >= 0.0 then r.Floor else 0 - (0.0 - r).Floor
  }

  /** The numbers among the array slots. */
  function Numbers(xs: seq<Value>): seq<real> {
    if xs == [] then [] else
      var init, last := Numbers(xs[..|xs| - 1]), NumToReal(xs[|xs| - 1]);
      if last.Just? then init + [last.value] else init
  }

  lemma {:induction false} NumbersBlind(xs: seq<Value>, ys: seq<Value>)
    requires |xs| == |ys| && forall i :: 0 <= i < |xs| ==> ys[i] == Normal(xs[i])
    ensures Numbers(ys) == Numbers(xs)
  {
    if xs != [] {
      NumberBlind(xs[|xs| - 1]);
      NumbersBlind(xs[..|xs| - 1], ys[..|ys| - 1]);
    }
  }

  lemma {:induction false} NumbersBack(cs: seq<real>)
    requires forall i :: 0 <= i < |cs| ==> Printable(cs[i])
    ensures Numbers(StoreSeq(cs, ComponentValue)) == cs
  {
    var xs := StoreSeq(cs, ComponentValue);
    if cs != [] {
      var init := cs[..|cs| - 1];
      NumbersBack(init);
      assert xs[..|xs| - 1] == StoreSeq(init, ComponentValue);
      assert cs == init + [cs[|cs| - 1]];
    }
  }

  // ---- versions ------------------------------------------------------------

  /** Versions whose numbers survive as text: a revision goes through a float64. */
  predicate StorableVersion(v: Version) {
    && (forall i :: 0 <= i < |v.components| ==> Printable(v.components[i]))
    && (v.hasRevision ==> -0x20_0000_0000_0000 <= v.revision <= 0x20_0000_0000_0000)
  }

  function VersionFields(v: Version): map<string, Value> {
    var fields := map["string" := Str(v.raw)];
    if v.hasRevision then fields["revision" := Int(v.revision)] else fields
  }

  /** versionToTable */
  function VersionTable(v: Version): Value
    requires StorableVersion(v)
  {
    Table(Numbered(StoreSeq(v.components, ComponentValue)), VersionFields(v))
  }

  method VersionToTable(v: Version) returns (t: Value)
    requires StorableVersion(v)
    ensures t == VersionTable(v)
  {
    var fields := map["string" := Str(v.raw)];
    var num := ComponentsToSlots(v.components);
    if v.hasRevision {
      fields := fields["revision" := Int(v.revision)];
    }
    return Table(num, fields);
  }

  lemma {:induction false} SlotsStep(cs: seq<real>, i: nat)
    requires i < |cs| && forall i :: 0 <= i < |cs| ==> Printable(cs[i])
    ensures
      var all := StoreSeq(cs, ComponentValue);
      Numbered(all[..i + 1]) == Numbered(all[..i])[i + 1 := ComponentValue(cs[i])]
  {
    var all := StoreSeq(cs, ComponentValue);
    assert all[..i + 1][..i] == all[..i];
  }

  method ComponentsToSlots(cs: seq<real>) returns (num: map<int, Value>)
    requires forall i :: 0 <= i < |cs| ==> Printable(cs[i])
    ensures num == Numbered(StoreSeq(cs, ComponentValue))
  {
    ghost var all := StoreSeq(cs, ComponentValue);
    num := map[];
    for i := 0 to |cs|
      invariant num == Numbered(all[..i])
    {
      SlotsStep(cs, i);
      num := num[i + 1 := ComponentValue(cs[i])];
    }
    assert all[..|cs|] == all;
  }

  function StringAt(rec: map<string, Value>, key: string): string {
    if key in rec && rec[key].Str? then rec[key].s else ""
  }

  function NumberAt(rec: map<string, Value>, key: string): Maybe<real> {
    if key in rec then NumToReal(rec[key]) else Nothing
  }

  /** The string fields of a version table. */
  function VersionFrom(rec: map<string, Value>, components: seq<real>): Version {
    var rev := NumberAt(rec, "revision");
    Version(StringAt(rec, "string"), components, if rev.Just? then Truncate(rev.value) else 0, rev.Just?, false, false)
  }

  const NO_VERSION := Version("", [], 0, false, false, false)

  /** constraintVersionFromValue, whose cases are a string, a mixed table, a
      string-keyed map, and anything else. */
  function ConstraintVersion(v: Value): Version {
    if v.Str? then NO_VERSION.(raw := v.s)
    else if !v.Table? || IsArray(v) then NO_VERSION
    else VersionFrom(v.rec, Numbers(Elements(v)))
  }

  method ConstraintVersionFromValue(v: Value) returns (out: Version)
    ensures out == ConstraintVersion(v)
  {
    if v.Str? {
      return NO_VERSION.(raw := v.s);
    }
    if !v.Table? || IsArray(v) {
      return NO_VERSION;
    }
    var components := NumbersOf(Elements(v));
    out := NO_VERSION.(raw := StringAt(v.rec, "string"), components := components);
    var rev := NumberAt(v.rec, "revision");
    if rev.Just? {
      out := out.(revision := Truncate(rev.value), hasRevision := true);
    }
  }

  method NumbersOf(xs: seq<Value>) returns (cs: seq<real>)
    ensures cs == Numbers(xs)
  {
    cs := [];
    for i := 0 to |xs|
      invariant cs == Numbers(xs[..i])
    {
      assert xs[..i + 1][..i] == xs[..i];
      var f := NumToReal(xs[i]);
      if f.Just? {
        cs := cs + [f.value];
      }
    }
    assert xs[..|xs|] == xs;
  }

  /** What the store keeps of a version. */
  function StoredVersion(v: Version): Version {
    v.(revision := if v.hasRevision then v.revision else 0, isSCM := false, isDev := false)
  }

  lemma {:induction false} FieldsBack(v: Version, components: seq<real>)
    ensures VersionFrom(VersionFields(v), components) == StoredVersion(v).(components := components)
    ensures VersionFields(v) != map[]
  {
    assert "string" in VersionFields(v);
  }

  lemma {:induction false} MixedVersion(xs: seq<Value>, rec: map<string, Value>)
    requires rec != map[]
    ensures ConstraintVersion(Table(Numbered(xs), rec)) == VersionFrom(rec, Numbers(xs))
  {
    ArrayElements(xs, rec);
  }

  lemma {:induction false} VersionBack(v: Version)
    requires StorableVersion(v)
    ensures ConstraintVersion(VersionTable(v)) == StoredVersion(v)
  {
    NumbersBack(v.components);
    FieldsBack(v, v.components);
    MixedVersion(StoreSeq(v.components, ComponentValue), VersionFields(v));
  }

  lemma {:induction false} FieldsBlind(v: Value, components: seq<real>)
    requires v.Table?
    ensures VersionFrom(Normal(v).rec, components) == VersionFrom(v.rec, components)
  {
    NormalShape(v);
    if "revision" in v.rec { NumberBlind(v.rec["revision"]); }
  }

  lemma {:induction false} VersionBlind(v: Value)
    ensures ConstraintVersion(Normal(v)) == ConstraintVersion(v)
  {
    if v.Table? {
      NormalShape(v);
      NormalElements(v);
      NumbersBlind(Elements(v), Elements(Normal(v)));
      FieldsBlind(v, Numbers(Elements(v)));
    }
  }

  // ---- constraints and dependencies ----------------------------------------

  predicate StorableConstraint(c: Constraint) {
    StorableVersion(c.version)
  }

  predicate StorableDep(d: Dep) {
    forall i :: 0 <= i < |d.constraints| ==> StorableConstraint(d.constraints[i])
  }

  function ConstraintFields(op: Value, version: Value): map<string, Value> {
    map["op" := op]["version" := version]
  }

  function ConstraintTable(c: Constraint): Value
    requires StorableConstraint(c)
  {
    MapOf(ConstraintFields(Str(c.op), VersionTable(c.version)))
  }

  function DepFields(name: string, constraints: seq<Value>): map<string, Value> {
    var fields := map["name" := Str(name)];
    if constraints == [] then fields else fields["constraints" := ArrayOf(constraints)]
  }

  /** One element of a dependency list. */
  function DepTable(d: Dep): Value
    requires StorableDep(d)
  {
    MapOf(DepFields(d.name, StoreSeq(d.constraints, ConstraintTable)))
  }

  method DepToTable(d: Dep) returns (t: Value)
    requires StorableDep(d)
    ensures t == DepTable(d)
  {
    var fields := map["name" := Str(d.name)];
    if |d.constraints| > 0 {
      var cs := StoreList(d.constraints, ConstraintTable);
      fields := fields["constraints" := ArrayOf(cs)];
    }
    return MapOf(fields);
  }

  function ConstraintFrom(v: Value): Maybe<Constraint> {
    if !IsMap(v) then Nothing
    else Just(Constraint(StringAt(v.rec, "op"),
                         if "version" in v.rec then ConstraintVersion(v.rec["version"]) else NO_VERSION))
  }

  /** A missing constraint list, or one that is no array, is no constraints. */
  function ConstraintsAt(rec: map<string, Value>): Maybe<seq<Constraint>> {
    if "constraints" in rec && IsArray(rec["constraints"])
    then LoadSeq(Elements(rec["constraints"]), ConstraintFrom)
    else Just([])
  }

  function DepFrom(v: Value): Maybe<Dep> {
    if !IsMap(v) then Nothing else
      var cs := ConstraintsAt(v.rec);
      if cs.Nothing? then Nothing else Just(Dep(StringAt(v.rec, "name"), "", cs.value))
  }

  method LoadDep(v: Value) returns (d: Maybe<Dep>)
    ensures d == DepFrom(v)
  {
    if !IsMap(v) {
      return Nothing;
    }
    var constraints: seq<Constraint> := [];
    if "constraints" in v.rec && IsArray(v.rec["constraints"]) {
      var cs := LoadList(Elements(v.rec["constraints"]), ConstraintFrom);
      if cs.Nothing? {
        return Nothing;
      }
      constraints := cs.value;
    }
    return Just(Dep(StringAt(v.rec, "name"), "", constraints));
  }

  /** loadDepList: the empty map stands for no dependencies. */
  function DepListFrom(v: Value): Maybe<seq<Dep>> {
    if IsArray(v) then LoadSeq(Elements(v), DepFrom)
    else if IsMap(v) && v.rec == map[] then Just([])
    else Nothing
  }

  function DepListTable(ds: seq<Dep>): Value
    requires forall i :: 0 <= i < |ds| ==> StorableDep(ds[i])
  {
    ArrayOf(StoreSeq(ds, DepTable))
  }

  method DepListToTable(ds: seq<Dep>) returns (t: Value)
    requires forall i :: 0 <= i < |ds| ==> StorableDep(ds[i])
    ensures t == DepListTable(ds)
  {
    var arr: seq<Value> := [];
    for i := 0 to |ds|
      invariant StoredSeqTo(ds, DepTable, arr, i)
    {
      var d := DepToTable(ds[i]);
      StoredSeqNext(ds, DepTable, arr, i, d);
      arr := arr + [d];
    }
    StoredSeqAll(ds, DepTable, arr);
    return ArrayOf(arr);
  }

  function StoredConstraint(c: Constraint): Constraint {
    Constraint(c.op, StoredVersion(c.version))
  }

  /** What the store keeps of a dependency: no namespace, no SCM and dev marks. */
  function StoredDep(d: Dep): Dep {
    Dep(d.name, "", MapSeq(d.constraints, StoredConstraint))
  }

  function StoredDeps(ds: seq<Dep>): seq<Dep> {
    MapSeq(ds, StoredDep)
  }

  lemma {:induction false} ConstraintBack(c: Constraint)
    requires StorableConstraint(c)
    ensures ConstraintFrom(ConstraintTable(c)) == Just(StoredConstraint(c))
  {
    VersionBack(c.version);
  }

  lemma {:induction false} ConstraintsBack(cs: seq<Constraint>)
    requires forall i :: 0 <= i < |cs| ==> StorableConstraint(cs[i])
    ensures LoadSeq(StoreSeq(cs, ConstraintTable), ConstraintFrom) == Just(MapSeq(cs, StoredConstraint))
  {
    forall i | 0 <= i < |cs| ensures ConstraintFrom(ConstraintTable(cs[i])) == Just(StoredConstraint(cs[i])) {
      ConstraintBack(cs[i]);
    }
    StoreLoadSeq(cs, ConstraintTable, ConstraintFrom, StoredConstraint);
  }

  lemma {:induction false} DepFieldKeys(name: string, xs: seq<Value>)
    ensures var fields := DepFields(name, xs);
      && StringAt(fields, "name") == name
      && ("constraints" in fields <==> xs != [])
      && (xs != [] ==> fields["constraints"] == ArrayOf(xs))
  {
  }

  lemma {:induction false} DepFieldsBack(name: string, xs: seq<Value>)
    ensures ConstraintsAt(DepFields(name, xs)) == if xs == [] then Just([]) else LoadSeq(xs, ConstraintFrom)
  {
    DepFieldKeys(name, xs);
    var fields := DepFields(name, xs);
    if xs != [] {
      var v := fields["constraints"];
      ArrayShape(xs);
      ArrayElements(xs, map[]);
      assert Elements(v) == xs;
    }
  }

  lemma {:induction false} DepBack(d: Dep)
    requires StorableDep(d)
    ensures DepFrom(DepTable(d)) == Just(StoredDep(d))
  {
    ConstraintsBack(d.constraints);
    DepFieldKeys(d.name, StoreSeq(d.constraints, ConstraintTable));
    DepFieldsBack(d.name, StoreSeq(d.constraints, ConstraintTable));
    if d.constraints == [] {
      assert MapSeq(d.constraints, StoredConstraint) == [];
    }
  }

  lemma {:induction false} DepListBack(ds: seq<Dep>)
    requires forall i :: 0 <= i < |ds| ==> StorableDep(ds[i])
    ensures DepListFrom(DepListTable(ds)) == Just(StoredDeps(ds))
  {
    var xs := StoreSeq(ds, DepTable);
    ArrayShape(xs);
    ArrayElements(xs, map[]);
    forall i | 0 <= i < |ds| ensures DepFrom(DepTable(ds[i])) == Just(StoredDep(ds[i])) {
      DepBack(ds[i]);
    }
    StoreLoadSeq(ds, DepTable, DepFrom, StoredDep);
    if ds == [] { assert StoredDeps(ds) == []; }
  }

  lemma {:induction false} ConstraintBlind()
    ensures Blind(ConstraintFrom)
  {
    forall v ensures ConstraintFrom(Normal(v)) == ConstraintFrom(v) {
      if v.Table? {
        NormalShape(v);
        if "version" in v.rec { VersionBlind(v.rec["version"]); }
      }
    }
  }

  lemma {:induction false} ConstraintsBlind(v: Value)
    requires v.Table?
    ensures ConstraintsAt(Normal(v).rec) == ConstraintsAt(v.rec)
  {
    NormalShape(v);
    if "constraints" in v.rec && v.rec["constraints"].Table? {
      ConstraintBlind();
      NormalShape(v.rec["constraints"]);
      BlindSeq(v.rec["constraints"], ConstraintFrom);
    }
  }

  lemma {:induction false} DepBlind()
    ensures Blind(DepFrom)
  {
    forall v ensures DepFrom(Normal(v)) == DepFrom(v) {
      if v.Table? {
        NormalShape(v);
        ConstraintsBlind(v);
      }
    }
  }

  lemma {:induction false} DepListBlind()
    ensures Blind(DepListFrom)
  {
    forall v ensures DepListFrom(Normal(v)) == DepListFrom(v) {
      if v.Table? {
        NormalShape(v);
        DepBlind();
        BlindSeq(v, DepFrom);
        assert v.rec == map[] <==> Normal(v).rec == map[];
      }
    }
  }

  // ---- meaning -------------------------------------------------------------

  lemma {:induction false} StoredMatches(v: Version, c: Constraint)
    ensures MatchOne(v, StoredConstraint(c)) <==> MatchOne(v, c)
  {
  }

  lemma {:induction false} AllStoredMatch(v: Version, cs: seq<Constraint>)
    ensures Match(v, MapSeq(cs, StoredConstraint)) <==> Match(v, cs)
  {
    var back := MapSeq(cs, StoredConstraint);
    forall j | 0 <= j < |cs| ensures MatchOne(v, back[j]) <==> MatchOne(v, cs[j]) {
      StoredMatches(v, cs[j]);
    }
  }

  /** A loader that sees no difference sees none in what a store wrote. */
  lemma BlindTo<T>(load: Value -> Maybe<T>, v: Value)
    requires Blind(load)
    ensures load(Normal(v)) == load(v)
  {
  }

  /** A constraint stored in the manifest and read back accepts exactly the versions
      that the original accepts, SCM and dev marks lost or not. */
  lemma {:induction false} StoredConstraintMatches(v: Version, c: Constraint)
    requires StorableConstraint(c)
    ensures var back := ConstraintFrom(Normal(ConstraintTable(c)));
      back.Just? && (MatchOne(v, back.value) <==> MatchOne(v, c))
  {
    ConstraintBlind();
    BlindTo(ConstraintFrom, ConstraintTable(c));
    ConstraintBack(c);
    StoredMatches(v, c);
  }

  /** The same for whole dependency lists, entry by entry. */
  lemma {:induction false} StoredDepsMatch(ds: seq<Dep>)
    requires forall i :: 0 <= i < |ds| ==> StorableDep(ds[i])
    ensures var back := DepListFrom(Normal(DepListTable(ds)));
      && back.Just? && |back.value| == |ds|
      && forall i, v :: 0 <= i < |ds| ==>
           back.value[i].name == ds[i].name
           && (Match(v, back.value[i].constraints) <==> Match(v, ds[i].constraints))
  {
    DepListBlind();
    BlindTo(DepListFrom, DepListTable(ds));
    DepListBack(ds);
    forall i, v | 0 <= i < |ds|
      ensures Match(v, StoredDeps(ds)[i].constraints) <==> Match(v, ds[i].constraints)
    {
      AllStoredMatch(v, ds[i].constraints);
    }
  }
}
