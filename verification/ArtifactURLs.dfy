/** Reading the URL of an artifact: its file name, what kind of file it is, and the rock,
    the version and the server that it was made from. */
module ArtifactURLs {
  import opened Text
  import opened Rocks
  import opened RemoteManifests

  // ---- the file of a URL -----------------------------------------------------

  /** What stands behind the last c of t; all of t when it has none. */
  function Behind(t: string, c: char): (r: string)
    ensures |r| <= |t| && c !in r
    ensures r == t[|t| - |r|..]
    ensures |r| < |t| ==> t[|t| - |r| - 1] == c
  {
    if t == "" || t[|t| - 1] == c then ""
    else
      var r := Behind(t[..|t| - 1], c);
      assert t == t[..|t| - 1] + [t[|t| - 1]];
      r + [t[|t| - 1]]
  }

  function Cropped(t: string, n: nat): string
    requires n <= |t|
  {
    t[..|t| - n]
  }

  function LowerText(t: string): (r: string)
    ensures |r| == |t| && forall i :: 0 <= i < |t| ==> r[i] == Lower(t[i])
  {
    seq(|t|, i requires 0 <= i < |t| => Lower(t[i]))
  }

  datatype Kind = BareRockspec | SourceRock | BinaryRock

  /** kindOf of client/native.go */
  function KindOf(url: string): Kind {
    var lower := LowerText(url);
    if HasSuffix(lower, ".src.rock") then SourceRock
    else if HasSuffix(lower, ".rock") then BinaryRock
    else BareRockspec
  }

  // ---- names and versions ----------------------------------------------------

  /** A version with its revision, such as 1.0.2-1: a body without hyphens, a hyphen and
      digits. */
  datatype RockVersion = RockVersion(body: string, revision: string)

  predicate ProperVersion(v: RockVersion) {
    && v.body != "" && '-' !in v.body && '/' !in v.body
    && v.revision != "" && All(v.revision, IsDigit)
  }

  function VersionKey(v: RockVersion): string {
    v.body + "-" + v.revision
  }

  /** The name and the version in name-body-revision. */
  function SplitStem(stem: string): Maybe<(string, RockVersion)> {
    var revision := Behind(stem, '-');
    if |revision| == |stem| then Nothing
    else
      var rest := Cropped(stem, |revision| + 1);
      var body := Behind(rest, '-');
      if |body| == |rest| then Nothing
      else Just((Cropped(rest, |body| + 1), RockVersion(body, revision)))
  }

  /** What a URL says: all before its last segment, the file without its suffix, and the
      arch between the last two dots of a rock. */
  datatype Reading = Reading(place: string, stem: string, arch: Maybe<string>) | Unknown

  function ReadFile(file: string): (string, Maybe<string>)
  {
    if HasSuffix(file, ".rockspec") then (Cropped(file, 9), Nothing)
    else if HasSuffix(file, ".rock") then
      var u := Cropped(file, 5);
      var arch := Behind(u, '.');
      if |arch| == |u| then (u, Just("")) else (Cropped(u, |arch| + 1), Just(arch))
    else (file, Just(""))
  }

  function ReadURL(url: string): Reading {
    var file := Behind(url, '/');
    if !HasSuffix(file, ".rockspec") && !HasSuffix(file, ".rock") then Unknown
    else
      var f := ReadFile(file);
      Reading(Cropped(url, |file|), f.0, f.1)
  }

  // ---- reading back ----------------------------------------------------------

  lemma {:induction false} BehindIs(t: string, c: char, n: nat)
    requires n <= |t| && c !in t[|t| - n..] && (n < |t| ==> t[|t| - n - 1] == c)
    ensures |Behind(t, c)| == n
  {
    var r := Behind(t, c);
    var m := |r|;
    assert t[|t| - m..] == r;
  }

  lemma {:induction false} BehindBack(t: string, c: char, r: string)
    requires c !in r
    ensures Behind(t + [c] + r, c) == r
    ensures Cropped(t + [c] + r, |r| + 1) == t && Cropped(t + [c] + r, |r|) == t + [c]
  {
    var whole := t + [c] + r;
    assert whole[|whole| - |r|..] == r;
    BehindIs(whole, c, |r|);
  }

  lemma SplitTwice(stem: string, name: string, rest: string, body: string, revision: string)
    requires Behind(stem, '-') == revision && |revision| < |stem| && rest == Cropped(stem, |revision| + 1)
    requires Behind(rest, '-') == body && |body| < |rest| && name == Cropped(rest, |body| + 1)
    ensures SplitStem(stem) == Just((name, RockVersion(body, revision)))
  {
  }

  lemma {:induction false} JoinStem(name: string, body: string, revision: string)
    ensures name + "-" + (body + "-" + revision) == name + "-" + body + "-" + revision
  {
    Regroup(name + "-", body, "-");
    Regroup(name + "-", body + "-", revision);
  }

  lemma {:induction false} SplitBack(name: string, v: RockVersion)
    requires ProperVersion(v)
    ensures SplitStem(name + "-" + VersionKey(v)) == Just((name, v))
  {
    JoinStem(name, v.body, v.revision);
    BehindBack(name + "-" + v.body, '-', v.revision);
    BehindBack(name, '-', v.body);
    SplitTwice(name + "-" + VersionKey(v), name, name + "-" + v.body, v.body, v.revision);
  }

  lemma {:induction false} RockspecFile(stem: string)
    ensures ReadFile(stem + ".rockspec") == (stem, Nothing)
  {
    var file := stem + ".rockspec";
    assert file[|file| - 9..] == ".rockspec" && Cropped(file, 9) == stem;
  }

  lemma {:induction false} RockFile(stem: string, arch: string)
    requires '.' !in arch
    ensures !HasSuffix(stem + "." + arch + ".rock", ".rockspec") && HasSuffix(stem + "." + arch + ".rock", ".rock")
    ensures ReadFile(stem + "." + arch + ".rock") == (stem, Just(arch))
  {
    var u := stem + ['.'] + arch;
    var file := u + ".rock";
    assert stem + "." + arch + ".rock" == file;
    assert file[|file| - 5..] == ".rock" && Cropped(file, 5) == u;
    assert file[|file| - 1] == 'k' && ".rockspec"[8] == 'c';
    BehindBack(stem, '.', arch);
  }

  lemma {:induction false} PlaceAndFile(place: string, file: string)
    requires '/' !in file && place != "" && place[|place| - 1] == '/'
    ensures Behind(place + file, '/') == file && Cropped(place + file, |file|) == place
  {
    var init := place[..|place| - 1];
    assert place == init + ['/'];
    BehindBack(init, '/', file);
  }

  /** What a URL of an artifact says about the arch. */
  function ArchSaid(arch: string): Maybe<string> {
    if arch == "rockspec" || arch == "installed" then Nothing else Just(arch)
  }

  predicate SlashFree(t: string) {
    '/' !in t
  }

  /** Where the file stands: below the server, or in the directory of an installed
      version. */
  function PlaceOf(base: string, name: string, version: string, arch: string): string {
    if arch == "installed" then base + "/" + name + "/" + version + "/" else base + "/"
  }

  lemma {:induction false} FileRead(url: string, place: string, file: string)
    requires url == place + file && '/' !in file && place != "" && place[|place| - 1] == '/'
    requires HasSuffix(file, ".rockspec") || HasSuffix(file, ".rock")
    ensures ReadURL(url) == Reading(place, ReadFile(file).0, ReadFile(file).1)
  {
    PlaceAndFile(place, file);
  }

  lemma {:induction false} RockspecURL(place: string, stem: string)
    requires SlashFree(stem) && place != "" && place[|place| - 1] == '/'
    ensures ReadURL(place + (stem + ".rockspec")) == Reading(place, stem, Nothing)
  {
    var file := stem + ".rockspec";
    RockspecFile(stem);
    assert file[|file| - 9..] == ".rockspec";
    FileRead(place + file, place, file);
  }

  lemma {:induction false} RockURL(place: string, stem: string, arch: string)
    requires SlashFree(stem) && SlashFree(arch) && '.' !in arch && place != "" && place[|place| - 1] == '/'
    ensures ReadURL(place + (stem + "." + arch + ".rock")) == Reading(place, stem, Just(arch))
  {
    var file := stem + "." + arch + ".rock";
    RockFile(stem, arch);
    FileRead(place + file, place, file);
  }

  /** The URL of an artifact reads as the place, the name and version, and the arch it was
      made from. */
  lemma {:induction false} FileBack(base: string, name: string, version: string, arch: string)
    requires SlashFree(name) && SlashFree(version) && SlashFree(arch) && '.' !in arch
    ensures ReadURL(base + "/" + ArtifactFile(name, version, arch))
         == Reading(PlaceOf(base, name, version, arch), name + "-" + version, ArchSaid(arch))
  {
    var place, stem := PlaceOf(base, name, version, arch), name + "-" + version;
    if arch == "installed" {
      RockspecURL(place, stem);
      InstalledFile(base, name, version);
    } else if arch == "rockspec" {
      RockspecURL(place, stem);
    } else {
      RockURL(place, stem, arch);
    }
  }

  lemma {:induction false} InstalledFile(base: string, name: string, version: string)
    ensures base + "/" + ArtifactFile(name, version, "installed")
         == PlaceOf(base, name, version, "installed") + (name + "-" + version + ".rockspec")
  {
    RegroupFive(base + "/", name, "/", version, "/");
    Regroup(base + "/", name + ("/" + (version + "/")), name + "-" + version + ".rockspec");
  }

  // ---- kinds -----------------------------------------------------------------

  function KindOfArch(arch: string): Kind {
    if arch == "rockspec" || arch == "installed" then BareRockspec
    else if LowerText(arch) == "src" then SourceRock
    else BinaryRock
  }

  lemma {:induction false} LowerSuffix(t: string, s: string)
    ensures LowerText(t + s) == LowerText(t) + LowerText(s)
  {
  }

  lemma {:induction false} LowerDotFree(t: string)
    requires '.' !in t
    ensures '.' !in LowerText(t)
  {
  }

  lemma {:induction false} SuffixAt(t: string, s: string)
    ensures HasSuffix(t, s) ==> forall i :: 0 <= i < |s| ==> t[|t| - |s| + i] == s[i]
  {
    if HasSuffix(t, s) {
      forall i | 0 <= i < |s| ensures t[|t| - |s| + i] == s[i] {
        assert t[|t| - |s|..][i] == s[i];
      }
    }
  }

  /** A text with a dot-free arch before ".rock" ends like a source rock if and only if
      that arch is src. */
  lemma {:induction false} SourceSuffix(t: string, arch: string)
    requires '.' !in arch
    ensures var u := t + "." + arch + ".rock"; HasSuffix(u, ".rock") && (HasSuffix(u, ".src.rock") <==> arch == "src")
  {
    var u := t + "." + arch + ".rock";
    RockFile(t, arch);
    if arch == "src" {
      assert u[|u| - 9..] == ".src.rock";
    }
    if HasSuffix(u, ".src.rock") {
      var v := u[..|u| - 9];
      assert u == v + "." + "src" + ".rock";
      RockFile(v, "src");
    }
  }

  lemma {:induction false} RockKind(t: string, arch: string)
    requires '.' !in arch
    ensures KindOf(t + "." + arch + ".rock") == if LowerText(arch) == "src" then SourceRock else BinaryRock
  {
    LowerSuffix(t, ".");
    LowerSuffix(t + ".", arch);
    LowerSuffix(t + "." + arch, ".rock");
    assert LowerText(".") == "." && LowerText(".rock") == ".rock";
    LowerDotFree(arch);
    SourceSuffix(LowerText(t), LowerText(arch));
  }

  lemma {:induction false} RockspecKind(t: string)
    ensures KindOf(t + ".rockspec") == BareRockspec
  {
    var u := LowerText(t + ".rockspec");
    LowerSuffix(t, ".rockspec");
    assert u[|u| - 1] == 'c';
    SuffixAt(u, ".rock");
    SuffixAt(u, ".src.rock");
  }

  /** Install tells the kind of artifact from the URL as the arch says. */
  lemma {:induction false} KindBack(base: string, name: string, version: string, arch: string)
    requires '.' !in arch
    ensures KindOf(base + "/" + ArtifactFile(name, version, arch)) == KindOfArch(arch)
  {
    var stem := name + "-" + version;
    if arch == "installed" {
      Regroup(base + "/", name + "/" + version + "/" + stem, ".rockspec");
      assert ArtifactFile(name, version, arch) == name + "/" + version + "/" + stem + ".rockspec";
      RockspecKind(base + "/" + (name + "/" + version + "/" + stem));
    } else if arch == "rockspec" {
      Regroup(base + "/", stem, ".rockspec");
      RockspecKind(base + "/" + stem);
    } else {
      RegroupFour(base + "/" + stem, ".", arch, ".rock");
      RegroupFour(stem, ".", arch, ".rock");
      Regroup(base + "/", stem, "." + (arch + ".rock"));
      RockKind(base + "/" + stem, arch);
    }
  }

  // ---- servers ---------------------------------------------------------------

  /** A "file://" in any case begins the server. */
  predicate HasFileScheme(server: string) {
    |server| >= 7 && LowerText(server[..7]) == "file://"
  }

  /** base is the server that URLs begin with: a directory with its scheme in lower case,
      or another server without the slashes at its end. */
  ghost predicate BaseOfServer(server: string, directory: bool, base: string) {
    if directory then base == if HasFileScheme(server) then "file://" + server[7..] else server
    else
      && |base| <= |server| && server[..|base|] == base && (base != "" ==> base[|base| - 1] != '/')
      && forall i :: |base| <= i < |server| ==> server[i] == '/'
  }

  lemma {:induction false} TrimmedBase(server: string)
    ensures BaseOfServer(server, false, TrimSlashes(server))
  {
    if server != "" && server[|server| - 1] == '/' {
      TrimmedBase(server[..|server| - 1]);
    }
  }

  lemma SchemeIs(server: string)
    ensures HasFilePrefix(server) <==> HasFileScheme(server)
  {
    if |server| >= 7 {
      var low := LowerText(server[..7]);
      assert low == "file://" <==> forall i :: 0 <= i < 7 ==> low[i] == "file://"[i];
    }
  }

  /** The URL of an item begins with the base of its server. */
  lemma {:induction false} URLIs(server: string, name: string, version: string, arch: string) returns (base: string)
    ensures BaseOfServer(server, LocalServerPath(server).Just?, base)
    ensures ArtifactURL(server, name, version, arch) == base + "/" + ArtifactFile(name, version, arch)
  {
    var dir := LocalServerPath(server);
    SchemeIs(server);
    if dir.Just? {
      base := if HasFilePrefix(server) then "file://" + dir.value else dir.value;
    } else {
      base := TrimSlashes(server);
      TrimmedBase(server);
    }
  }
}
