/** Exactly which tree manifests a write and a read keep: reading never gives a carriage
    return back. */
module ManifestExactness {
  import opened LuaValue
  import opened LuaText
  import opened LuaGrammar
  import opened LuaRoundTrip
  import opened LuaFaithful
  import opened Constraints
  import opened Rocks
  import opened Tables
  import opened ConstraintStore
  import opened ManifestStore
  import opened ManifestRoundTrip
  import SortedKeys

  /** No string in the tree holds a carriage return. */
  ghost predicate Returnless(v: Value)
    decreases v
  {
    match v
    case Str(s) => NoReturn(s)
    case Table(num, rec) =>
      && (forall k :: k in num ==> Returnless(num[k]))
      && (forall k :: k in rec ==> NoReturn(k) && Returnless(rec[k]))
    case _ => true
  }

  /** Whatever was written, what is read back holds none. */
  lemma {:induction false} ReadBackReturnless(v: Value)
    ensures Returnless(ReadBack(v))
    decreases v
  {
    if v.Str? {
      StrBackKeeps(v.s);
    } else if v.Table? {
      var w := ReadBack(v);
      forall k | k in w.num ensures Returnless(w.num[k]) {
        NumBackAt(v, k);
        var j :| j in v.num && v.num[j] == Slot(v.num, k);
        ReadBackReturnless(v.num[j]);
      }
      forall k | k in w.rec ensures NoReturn(k) && Returnless(w.rec[k]) {
        var j := RecBackSource(v, k);
        StrBackKeeps(j);
        ReadBackReturnless(v.rec[j]);
      }
    }
  }

  // ---- loading tables without carriage returns -----------------------------

  ghost predicate ReturnlessFields(rec: map<string, Value>) {
    forall k :: k in rec ==> NoReturn(k) && Returnless(rec[k])
  }

  lemma {:induction false} ElementsReturnless(v: Value)
    requires v.Table? && Returnless(v)
    ensures forall i :: 0 <= i < |Elements(v)| ==> Returnless(Elements(v)[i])
  {
    var ks := SortedKeys.Ints(v.num.Keys);
    forall i | 0 <= i < |Elements(v)| ensures Returnless(Elements(v)[i]) {
      assert ks[i] in ks;
    }
  }

  lemma {:induction false} IndexReturnless(rec: map<string, Value>, key: string)
    requires ReturnlessFields(rec) && IndexAt(rec, key).Just?
    ensures NoReturns(IndexAt(rec, key).value)
  {
    if key in rec && IsMap(rec[key]) {
      var fields := rec[key].rec;
      var m := LoadMap(fields, StringFrom);
      forall k | k in m.value ensures NoReturn(k) && NoReturn(m.value[k]) {
        assert k in fields && StringFrom(fields[k]) == Just(m.value[k]);
        assert Returnless(rec[key]) && Returnless(fields[k]) && fields[k] == Str(m.value[k]);
      }
    }
  }

  lemma {:induction false} EntryReturnless(v: Value)
    requires Returnless(v) && ArchEntryFrom(v).Just?
    ensures CleanEntry(ArchEntryFrom(v).value)
  {
    ElementsReturnless(v);
    var rec := Elements(v)[0].rec;
    IndexReturnless(rec, "modules");
    IndexReturnless(rec, "commands");
    IndexReturnless(rec, "dependencies");
  }

  lemma {:induction false} VersionsReturnless(v: Value)
    requires Returnless(v) && VersionsFrom(v).Just?
    ensures CleanVersions(VersionsFrom(v).value)
  {
    var r := VersionsFrom(v).value;
    forall k | k in r ensures NoReturn(k) && CleanEntry(r[k]) {
      assert ArchEntryFrom(v.rec[k]) == Just(r[k]);
      EntryReturnless(v.rec[k]);
    }
  }

  lemma {:induction false} StringAtReturnless(rec: map<string, Value>, key: string)
    requires ReturnlessFields(rec)
    ensures NoReturn(StringAt(rec, key))
  {
  }

  lemma {:induction false} VersionReturnless(v: Value)
    requires Returnless(v)
    ensures NoReturn(ConstraintVersion(v).raw)
  {
    if v.Table? { StringAtReturnless(v.rec, "string"); }
  }

  lemma {:induction false} ConstraintReturnless(v: Value)
    requires Returnless(v) && ConstraintFrom(v).Just?
    ensures NoReturn(ConstraintFrom(v).value.op) && NoReturn(ConstraintFrom(v).value.version.raw)
  {
    StringAtReturnless(v.rec, "op");
    if "version" in v.rec { VersionReturnless(v.rec["version"]); }
  }

  lemma {:induction false} DepReturnless(v: Value)
    requires Returnless(v) && DepFrom(v).Just?
    ensures CleanDep(DepFrom(v).value)
  {
    StringAtReturnless(v.rec, "name");
    if "constraints" in v.rec && IsArray(v.rec["constraints"]) {
      var xs := Elements(v.rec["constraints"]);
      ElementsReturnless(v.rec["constraints"]);
      var cs := LoadSeq(xs, ConstraintFrom).value;
      forall i | 0 <= i < |cs| ensures NoReturn(cs[i].op) && NoReturn(cs[i].version.raw) {
        assert ConstraintFrom(xs[i]) == Just(cs[i]);
        ConstraintReturnless(xs[i]);
      }
    }
  }

  lemma {:induction false} DepListReturnless(v: Value)
    requires Returnless(v) && DepListFrom(v).Just?
    ensures CleanDeps(DepListFrom(v).value)
  {
    if IsArray(v) {
      var xs := Elements(v);
      ElementsReturnless(v);
      var ds := LoadSeq(xs, DepFrom).value;
      forall i | 0 <= i < |ds| ensures CleanDep(ds[i]) {
        assert DepFrom(xs[i]) == Just(ds[i]);
        DepReturnless(xs[i]);
      }
    }
  }

  lemma {:induction false} DepVersionsReturnless(v: Value)
    requires Returnless(v) && DepVersionsFrom(v).Just?
    ensures CleanDepVersions(DepVersionsFrom(v).value)
  {
    var r := DepVersionsFrom(v).value;
    forall k | k in r ensures NoReturn(k) && CleanDeps(r[k]) {
      assert DepListFrom(v.rec[k]) == Just(r[k]);
      DepListReturnless(v.rec[k]);
    }
  }

  lemma {:induction false} ProvidersReturnless(rec: map<string, Value>, key: string)
    requires ReturnlessFields(rec) && SectionAt(rec, key, ProvidersFrom).Just?
    ensures CleanKeys(SectionAt(rec, key, ProvidersFrom).value)
  {
  }

  lemma {:induction false} RepositoryReturnless(rec: map<string, Value>)
    requires ReturnlessFields(rec) && SectionAt(rec, "repository", RepositoryFrom).Just?
    ensures var r := SectionAt(rec, "repository", RepositoryFrom).value;
      CleanKeys(r) && forall k :: k in r ==> CleanVersions(r[k])
  {
    var r := SectionAt(rec, "repository", RepositoryFrom).value;
    forall k | k in r ensures NoReturn(k) && CleanVersions(r[k]) {
      assert VersionsFrom(rec["repository"].rec[k]) == Just(r[k]);
      VersionsReturnless(rec["repository"].rec[k]);
    }
  }

  lemma {:induction false} DependenciesReturnless(rec: map<string, Value>)
    requires ReturnlessFields(rec) && SectionAt(rec, "dependencies", DependenciesFrom).Just?
    ensures var r := SectionAt(rec, "dependencies", DependenciesFrom).value;
      CleanKeys(r) && forall k :: k in r ==> CleanDepVersions(r[k])
  {
    var r := SectionAt(rec, "dependencies", DependenciesFrom).value;
    forall k | k in r ensures NoReturn(k) && CleanDepVersions(r[k]) {
      assert DepVersionsFrom(rec["dependencies"].rec[k]) == Just(r[k]);
      DepVersionsReturnless(rec["dependencies"].rec[k]);
    }
  }

  lemma {:induction false} LoadedIsClean(rec: map<string, Value>)
    requires ReturnlessFields(rec) && ManifestFrom(rec).Just?
    ensures CleanNames(ManifestFrom(rec).value)
  {
    ProvidersReturnless(rec, "modules");
    ProvidersReturnless(rec, "commands");
    RepositoryReturnless(rec);
    DependenciesReturnless(rec);
  }

  // ---- what is stored ------------------------------------------------------

  lemma {:induction false} StoredDepIsClean(d: Dep)
    requires CleanDep(StoredDep(d))
    ensures CleanDep(d)
  {
    var kept := StoredDep(d);
    forall i | 0 <= i < |d.constraints|
      ensures NoReturn(d.constraints[i].op) && NoReturn(d.constraints[i].version.raw)
    {
      assert kept.constraints[i] == StoredConstraint(d.constraints[i]);
    }
  }

  lemma {:induction false} StoredDepsAreClean(versions: map<string, seq<Dep>>)
    requires CleanDepVersions(StoredDepVersions(versions))
    ensures CleanDepVersions(versions)
  {
    var kept := StoredDepVersions(versions);
    forall v | v in versions ensures NoReturn(v) && CleanDeps(versions[v]) {
      assert v in kept && kept[v] == StoredDeps(versions[v]);
      forall i | 0 <= i < |versions[v]| ensures CleanDep(versions[v][i]) {
        assert kept[v][i] == StoredDep(versions[v][i]);
        StoredDepIsClean(versions[v][i]);
      }
    }
  }

  lemma {:induction false} StoredEntriesAreClean(versions: map<string, RepoEntry>)
    requires CleanVersions(StoredVersions(versions))
    ensures CleanVersions(versions)
  {
    var kept := StoredVersions(versions);
    forall v | v in versions ensures NoReturn(v) && CleanEntry(versions[v]) {
      assert v in kept && kept[v] == StoredEntry(versions[v]);
    }
  }

  lemma {:induction false} StoredIsClean(m: Manifest)
    requires CleanNames(StoredManifest(m))
    ensures CleanNames(m)
  {
    var kept := StoredManifest(m);
    forall k | k in m.repository ensures NoReturn(k) && CleanVersions(m.repository[k]) {
      assert k in kept.repository && kept.repository[k] == StoredVersions(m.repository[k]);
      StoredEntriesAreClean(m.repository[k]);
    }
    forall k | k in m.dependencies ensures NoReturn(k) && CleanDepVersions(m.dependencies[k]) {
      assert k in kept.dependencies && kept.dependencies[k] == StoredDepVersions(m.dependencies[k]);
      StoredDepsAreClean(m.dependencies[k]);
    }
  }

  // ---- files ---------------------------------------------------------------

  /** What ReadTree makes of a written file holds no carriage returns. */
  lemma {:induction false} ReadTreeIsClean(m: Manifest)
    requires Storable(m) && ReadTree(TreeFile(m)).Just?
    ensures CleanNames(ReadTree(TreeFile(m)).value)
  {
    SectionsArePlain(m);
    var v := ManifestTable(m);
    FileBack(v);
    ReadBackReturnless(v);
    LoadedIsClean(ReadBack(v).rec);
  }

  /** ReadTree gives back what WriteTree was given, up to what is not stored, exactly when
      no provider list is empty, no provider token holds a line end and no name a carriage
      return. */
  lemma {:induction false} TreeFileExactly(m: Manifest)
    requires Storable(m)
    ensures ReadTree(TreeFile(m)) == Just(StoredManifest(m))
      <==> Loadable(m) && PlainTokens(m.modules) && PlainTokens(m.commands) && CleanNames(m)
  {
    if CleanNames(m) {
      TreeFileBack(m);
    } else if ReadTree(TreeFile(m)) == Just(StoredManifest(m)) {
      ReadTreeIsClean(m);
      StoredIsClean(m);
    }
  }
}
