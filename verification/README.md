# go-luarocks: a verified model

A Dafny model of the parts of go-luarocks whose behaviour is hard to see from any one
function, and proofs about them. `dafny verify dfyconfig.toml` checks the whole project.

- **Lua tables as text** (`Text`, `SortedKeys`, `LuaValue`, `LuaText`, `LuaGrammar`,
  `LuaSyntax`, `LuaReading`, `LuaExact`, `LuaRoundTrip`, `LuaFaithful`, `LuaPanics`,
  `LuaParser`, `LuaWriter`, `LuaLayout`): what `manif.Write` prints, what `manif.Parse`
  makes of it, and exactly which texts it accepts. The text and the grammar are functions;
  the buffer with its sticky error and the parser with its cursor are classes whose methods
  are proved against them. The main results say exactly which tables survive a write and a
  read.
- **The manifest store** (`Tables`, `ConstraintStore`, `ManifestStore`,
  `ManifestRoundTrip`, `ManifestExactness`, `PathTree`, `RockManifestStore`): typed
  manifests as Lua tables and as files, dependency constraints, and rock manifests with
  their folded directory trees.
- **Versions and constraints** (`Versions`, `VersionText`, `VersionMeaning`, `Constraints`,
  `ConstraintMeaning`): the version parser, the order and its irregular ties, the keyword
  arithmetic, and what each operator accepts.
- **Choosing a version** (`Rocks`, `Sorting`, `Selection`, `HiddenRevision`): the scanning
  and the sorting pick, and exactly when the second misses the newest.
- **The dependency resolver** (`Resolver`, `PlanMeaning`): the depth-first walk with its
  fields, its termination measure, what its plans and its errors guarantee, and that a
  plan is the one unfolding of what the root declares.
- **Provider lists, installs and removes** (`ProviderLists`, `TreeIndex`, `TreeRuns`,
  `TreeHistory`): the tree manifest under every run of operations, each reading the file
  the last wrote, and told from the operations alone.
- **Module ownership** (`Conflicts`, `SpotMeaning`, `Confluence`): which rock's file stands
  at the plain path, independent of the order of installs, and where the others go.
- **The VM pool** (`VMPool`, `PoolCrashes`): all interleavings of calls and background
  warm-ups, and exactly from which states the WaitGroup they share can panic.
- **Remote manifests** (`RemoteManifests`, `ArtifactURLs`, `ManifestCaches`, `LoadMeaning`,
  `RowMeaning`, `RockSearch`, `SearchMeaning`, `ArtifactAgreement`, `ChoiceMeaning`): two
  levels of caching against loading afresh, what queries and searches find, which file
  install and download fetch, and their agreement on it.

Most modules model a part of the source. Those whose names end in `Meaning`, and
`LuaSyntax`, `LuaReading`, `LuaExact`, `LuaLayout` and `TreeHistory`, say what that part
means in terms of its inputs, without the functions that model it.

Seven findings are stated as exact conditions or with a concrete instance:

- Concurrent calls of the Lua engine can crash the program. They share one
  `sync.WaitGroup`, and a call that starts its warm-up at counter zero while another has
  been woken from `Wait` but has not returned makes that `Wait` panic
  (`PoolCrashes.BurstCrashes`). Which states can still panic without new calls is read off
  where the calls stand (`PoolCrashes.CrashExactly`); a bound on the number of calls under
  way rules panics out exactly when it is at most one (`PoolCrashes.SafeExactly`).
- `manif.Parse` panics on some keys, such as that of `x = {[true] = 1,}`, where its comment
  promises an error (`LuaPanics.BooleanKeyPanics`; `LuaPanics.ParsePanics` for the texts,
  `LuaValue.CollapsePanics` for the keys). No file that `manif.Write` makes has one
  (`LuaFaithful.FileBack`).
- The sorting pick of `deps/resolver.go` can return a rock that a matching candidate
  beats: of 1.0-1, 1.0.0 and 1.0.0-2, the order in which an index hands them over, it
  returns the first, because 1.0.0 ties with both (`HiddenRevision.MissesNewest`;
  `Selection.SortBeatenExactly` for the condition). The scanning pick cannot.
- A manifest with an empty provider list, or with a line end in a provider token, is
  written but cannot be read (`ManifestRoundTrip.TreeFileBack`); no run of installs and
  removes produces one (`TreeRuns.AfterRun`).
- Deploying a version again without a module that it had leaves it listed as a provider of
  that module (`TreeHistory.RedeployedIsStale`; `TreeHistory.StaleExactly` for the
  condition).
- A rock manifest path that starts with a slash, or that lies under another path, does
  not survive folding (`PathTree.FoldThenFlatten`).
- An HTTP index that is given a local directory and shares a cache with the index of that
  directory answers from the cache, whatever a load of its own would find
  (`ManifestCaches.DirectoryOverHTTP`; `ManifestCaches.AnswersFreshExactly` for the
  condition); indexes made by `NewIndex` are never given one.

Where code and comments differ the model follows the code. The comment above
`remote/file.go`'s `Query` promises the behaviour of the HTTP index; `load` reports a
decode error in preference to a missing file, and only the fact of failing is modelled.
`manif/store.go`'s comment calls `manifestFromTable` the inverse of `manifestToTable`; it
is one only up to the exact conditions above.

## Reading the model

Go strings are sequences of characters; a Go byte string is one with all characters below
256, and nothing depends on that bound. Lua values are one datatype: a table with only
integer keys is `[]any`, one with only string keys `map[string]any`, one with both the
mixed table; the empty table is the empty map. Numbers are 64-bit integers or exact
decimals in units of 1/100000, those that print in full: whole ones below 10^16 and others
below 10^9; in version arithmetic components are exact reals. Go iterates over maps in any order: methods pick the next key freely, and
results that could depend on the order are relations that cover all outcomes.

## Model

| member | source | states |
|---|---|---|
| `LuaFaithful.WriteThenRead` | manif/parser.go:59-92 | Reading what was written for a table with plain top-level keys gives that table if and only if it is readable (no nil, 64-bit integers, no array slot holding a string with a line end) and faithful (no carriage return, no whole number held as a float, array slots numbered 1 to n), at any nesting |
| `LuaFaithful.FileBack` | manif/writer.go:131-148 | For every table that Write accepts: the file parses to one exact tree when the table is readable; otherwise reading it fails, with a parse error when all integers are in the 64-bit range, and else with that or with the outcome for literals that the source reads as a float64 |
| `LuaFaithful.ReadIsStable` | manif/parser.go:59-92 | Whatever a first write and read returns can be written again and is then read back as itself, so a third write gives the same bytes |
| `LuaFaithful.FaithfulExactly` | manif/parser.go:642-720 | The tree read back equals the written one exactly when it is faithful |
| `LuaRoundTrip.ValueBack` | manif/parser.go:193-240 | The text of any value in front of a separator reads back as its read-back image with the rest untouched, or fails exactly when the value is not readable, with a parse error unless an integer is beyond 64 bits |
| `LuaRoundTrip.TableBack` | manif/parser.go:507-600 | The same for a table: separators, indentation, key forms and the look-ahead for an identifier key never change what is read |
| `LuaRoundTrip.CollapseBack` | manif/parser.go:642-720 | The entries of a written table collapse to an array, a mixed table or a string-keyed map holding exactly the read-back entries |
| `LuaRoundTrip.QuotedBack` | manif/writer.go:340-374 | parseShortString undoes luaQ on every string, in front of any text |
| `LuaRoundTrip.ControlEscape` | manif/parser.go:320-350 | A decimal escape of one to three digits is read as the byte it was written for, whatever follows it |
| `LuaRoundTrip.LongBack` | manif/parser.go:379-439 | A long bracket of any usable level is read back with its carriage returns folded and one leading newline dropped |
| `LuaRoundTrip.FirstClose` | manif/parser.go:405-425 | The first closing bracket of the level in the text is the one the writer put there |
| `LuaRoundTrip.IntTextBack` | manif/parser.go:446-500 | An integer in the 64-bit range is read back; one outside it is the outcome for literals that the source reads as a float64 |
| `LuaRoundTrip.DecTextBack` | manif/writer.go:381-399 | A decimal that prints in full is read back as itself, or as the integer it is equal to: whole numbers below 10^16, others with up to nine digits before the point |
| `LuaRoundTrip.PlainKeyStep` | manif/parser.go:605-640 | An identifier key followed by "=" is taken for a key |
| `LuaRoundTrip.MistakenStep` | manif/parser.go:526-545 | An array slot that starts with a long bracket is taken for a bracketed key, which is a parse error |
| `Text.DecimalRoundTrip` | manif/writer.go:151-200 | The decimal numeral of a number denotes it |
| `Text.FractionRoundTrip` | manif/writer.go:381-399 | The digits behind the point denote the fraction they were written for |
| `Text.LessMeaning` | remote/search.go:399-419 | Strings compare by the first place where they differ, and by their length where one goes on |
| `LuaText.LevelFrom` | manif/writer.go:299-317 | The level search ends at a usable level not above the length of the string, and all levels before it are unusable |
| `LuaParser.Parse` | manif/parser.go:59-92 | The cursor-driven parser returns exactly what the grammar says of the whole text |
| `LuaParser.Parser.SkipWS` | manif/parser.go:120-146 | White space and comments are skipped, a long comment is not |
| `LuaParser.Parser.ParseEscape` | manif/parser.go:275-355 | One escape sequence against the grammar, the loop over at most three digits included |
| `LuaParser.Parser.ParseShortString` | manif/parser.go:245-360 | The string loop against the grammar, with the cursor behind the closing quote |
| `LuaParser.Parser.TryParseLongBracket` | manif/parser.go:379-429 | A long bracket, no bracket with the cursor back where it was, or an unclosed one |
| `LuaParser.Parser.ParseNumber` | manif/parser.go:446-500 | Integers and decimals; every other well-formed literal is reported as a float literal, one without digits in its mantissa or its exponent as malformed |
| `LuaParser.Parser.IdentKeyLookahead` | manif/parser.go:605-640 | Tells an identifier key from a value and leaves the cursor alone |
| `LuaParser.Parser.ParseValue` | manif/parser.go:193-240 | One value against the grammar |
| `LuaParser.Parser.ParseEntry` | manif/parser.go:526-575 | One entry of a table and the next positional index |
| `LuaParser.Parser.ParseTable` | manif/parser.go:507-600 | The loop over entries and separators against the grammar |
| `LuaParser.EntriesToValue` | manif/parser.go:642-720 | The entry list as a dense array, a mixed table or a string-keyed map with its numbers printed, or the panic on a key |
| `LuaValue.CollapsePanics` | manif/parser.go:642-720 | It panics exactly when a key is neither string nor number, or a float beside an integer and a string key |
| `LuaExact.ReadsExactly` | manif/parser.go:59-92 | Parse accepts exactly the texts that a syntax tree spells, each as what the tree denotes, both directions |
| `LuaReading.FileReads` | manif/parser.go:59-92 | Every text of the format, told by a syntax tree of assignments with their white space, comments, quotes, escapes, bracket levels, numerals, key forms and separators, reads as what the tree denotes; the denotation mentions neither the parser nor the layout |
| `LuaReading.LiteralBack` | manif/parser.go:193-240 | The same for one value in front of any text that does not run into it |
| `LuaReading.TableKeeps` | manif/parser.go:642-720 | A table keeps of each key the last value: named fields under their names, numbered ones under their numbers |
| `LuaSyntax.ShortStringBack` | manif/parser.go:245-360 | In either quote, with each byte spelled as itself, by name, in hexadecimal, by its code or by a broken line, a string reads as the bytes spelled |
| `LuaSyntax.LongStringBack` | manif/parser.go:379-439 | A long string of any level reads as its characters, each line end in any of its four forms as a line feed and one right behind the bracket dropped, when the closing bracket does not occur in it |
| `LuaSyntax.NumeralBack` | manif/parser.go:446-500 | A numeral reads as the number its digits spell, brought to five places behind the point |
| `LuaSyntax.SpaceSkipped` | manif/parser.go:120-146 | White space and comments before a text, in any mixture, are skipped |
| `LuaPanics.ParsePanics` | manif/parser.go:507-720 | Parse panics on a text if and only if a table with such a key is closed before the first parse error, told by a reading that collapses nothing; on other texts that reading ends with the same error, or none |
| `LuaPanics.BooleanKeyPanics` | manif/parser.go:713-717 | Every text that starts with `x = {[true] = 1,}` makes Parse panic |
| `LuaWriter.LuaQ` | manif/writer.go:340-374 | The quoting loop produces the quoted text |
| `LuaWriter.LongBracket` | manif/writer.go:299-317 | The loop ends with the least usable level and writes the string in a bracket of that level |
| `LuaWriter.WriteTable` | manif/writer.go:204-266 | What is appended is the table text with its separators and indentation, unless a write failed, and then nothing more is |
| `LuaWriter.WriteTableKeyAssignment` | manif/writer.go:271-284 | The plain or the bracketed key form |
| `LuaWriter.Write` | manif/writer.go:34-52 | What is no table is refused; so is a top-level key that is no plain identifier, behind exactly the assignments before it; otherwise the whole file text is appended or the sticky error is set |
| `LuaLayout.TableLooks` | manif/writer.go:204-266 | The text of a table entry by entry: an entry behind a number shares its line, another one begins a line three spaces deeper for each table around it, and so does the brace that ends a table with entries |
| `LuaLayout.KeyLooks` | manif/writer.go:402-431 | A key stands bare if and only if it is an identifier and none of the 22 words of Lua |
| `LuaLayout.QuotedVisible` | manif/writer.go:340-374 | A string without a line feed is quoted without any control character |
| `ConstraintStore.StoredConstraintMatches` | manif/store.go:549-620 | A constraint stored in the manifest and read back accepts exactly the versions the original accepts, for component lists of any length and with or without a revision, although SCM and dev marks are lost |
| `ConstraintStore.StoredDepsMatch` | manif/store.go:496-541 | The same for whole dependency lists, names and order kept |
| `ConstraintStore.VersionBack` | manif/store.go:549-620 | constraintVersionFromValue undoes versionToTable but for the SCM and dev marks |
| `ConstraintStore.VersionBlind` | manif/store.go:592-601 | Reading a version does not depend on whether whole numbers arrive as integers or floats |
| `ConstraintStore.DepListBack` | manif/store.go:496-541 | A dependency list read back, the empty one as the empty map included |
| `ConstraintStore.VersionToTable` | manif/store.go:608-620 | The loop over the components and the conditional revision key |
| `ConstraintStore.ConstraintVersionFromValue` | manif/store.go:549-588 | The four cases of the type switch |
| `ConstraintStore.LoadDep` | manif/store.go:511-541 | One dependency entry, with an absent or malformed constraint list read as none |
| `ManifestRoundTrip.TreeFileBack` | manif/store.go:55-90 | For manifests without carriage returns: ReadTree after WriteTree succeeds exactly when no provider list is empty and no provider token holds a line end, and then returns the manifest up to what the store drops |
| `ManifestExactness.TreeFileExactly` | manif/store.go:55-90 | For all manifests whose version numbers print in full: ReadTree after WriteTree returns the manifest up to what the store drops if and only if no provider list is empty, no provider token holds a line end and no stored name a carriage return |
| `ManifestExactness.ReadBackReturnless` | manif/parser.go:431-439 | Whatever was written, no string that is read back holds a carriage return |
| `ManifestRoundTrip.ManifestBack` | manif/store.go:186-430 | manifestFromTable after manifestToTable fails exactly on empty provider lists |
| `ManifestRoundTrip.EntryBack` | manif/store.go:432-494 | An arch entry read back: installed ones whole, others without their dependencies |
| `ManifestRoundTrip.ManifestBlind` | manif/store.go:324-401 | Loading a manifest does not depend on the float form of whole numbers |
| `ManifestStore.ManifestToTable` | manif/store.go:186-317 | The loops that build the four sections |
| `ManifestStore.EntryToTable` | manif/store.go:220-270 | An arch entry: installed ones carry all three indexes, others only those that are not empty |
| `ManifestStore.LoadStringListMap` | manif/store.go:403-430 | The nested loops over provider lists; an empty one is an error |
| `ManifestStore.ExtractRepoEntry` | manif/store.go:432-494 | The first arch entry of a version, or an error |
| `ManifestStore.ManifestFromTable` | manif/store.go:324-401 | All four sections, absent ones empty, or the first error |
| `PathTree.FoldThenFlatten` | manif/store.go:653-749 | Whatever the iteration orders, flattening a folded set of paths gives the set back if and only if no path lies under another and none starts with a slash |
| `PathTree.FoldOrderIrrelevant` | manif/store.go:653-680 | For such prefix-free sets every iteration order folds to the same tree |
| `PathTree.InsertLeaf` | manif/store.go:658-677 | Walking one path down changes that leaf and removes exactly the leaves above and below it |
| `PathTree.SameLeavesSameTree` | manif/store.go:653-680 | A nested tree is determined by its leaves |
| `PathTree.AboveMeaning` | manif/store.go:658-662 | One path is a directory of another exactly when its segments are a proper prefix |
| `PathTree.StringMapToNested` | manif/store.go:653-680 | The loop folds the map in some iteration order |
| `PathTree.FlattenNested` | manif/store.go:728-749 | Every entry comes from a leaf at its joined path, and every leaf has one |
| `RockManifestStore.RockManifestBack` | manif/store.go:622-726 | rockManifestFromTable undoes rockManifestToTable, in any iteration order, if and only if every directory can be folded and the rockspec file name is one it looks for |
| `RockManifestStore.RockManifestSurvives` | manif/store.go:98-144 | WriteRock then ReadRock on a clean rock manifest: never an error, and the same manifest |
| `RockManifestStore.TableMeaning` | manif/store.go:622-650 | The table has the checksum under the rockspec file name, or under "rockspec", and each file of the five directories, and no other, as a leaf at its path |
| `RockManifestStore.RockFileBack` | manif/store.go:98-144 | The table read from the file is the one that was written |
| `RockManifestStore.KeptIsAccepted` | manif/store.go:682-726 | A table written from such a manifest gives the loader no reason to fail |
| `RockManifestStore.RockManifestToTable` | manif/store.go:622-651 | The rockspec entry and the directories that are not empty |
| `RockManifestStore.RockManifestFromTable` | manif/store.go:682-726 | The first rockspec key met and the five directories, or an error |
| `Versions.StrictOrder` | deps/version.go:199-230 | Compare is antisymmetric and its strict part is transitive, on all versions |
| `Versions.UniformOrder` | deps/version.go:199-230 | On versions that all carry a revision, or all do not, the weak order is transitive as well |
| `Versions.TieIsNotTransitive` | deps/version.go:190-230 | 1.0-1 ties with 1.0 and 1.0 with 1.0-2, yet 1.0-1 is below 1.0-2 |
| `Versions.ComponentOrder` | deps/version.go:199-230 | Zero-padded component lists are totally preordered |
| `Versions.EqualIsTie` | deps/version.go:173-190 | Equal versions compare as 0, and with equally many components only those do |
| `Versions.SlotCount` | deps/version.go:99-157 | k numbers give k slots, or k + 1 when words follow the last |
| `Versions.ParseVersion` | deps/version.go:69-166 | The in-place slot loop ends and computes the fold over the tokens |
| `VersionMeaning.VersionBack` | deps/version.go:69-160 | A version text reads as its numbers and words are worth, token by token, with its revision and its marks, whatever separates them and whatever space surrounds them |
| `VersionMeaning.ParsesExactly` | deps/version.go:69-160 | A text is parsed if and only if it is such a version, and then as what that means |
| `VersionMeaning.LargeIsRefused` | deps/version.go:78-112 | A number beyond 2^63 - 1 is refused, in the body and in the revision |
| `VersionMeaning.NumberedOrder` | deps/version.go:100-110 | Of two versions that differ in the number behind a word the lower number comes first |
| `Versions.TakeToken` | deps/version.go:99-157 | One turn of the loop: opening, filling and closing slots in place |
| `Versions.CompareVersions` | deps/version.go:199-230 | The comparison loop |
| `Versions.EqualVersions` | deps/version.go:173-190 | The equality loop |
| `VersionText.SpellingTokens` | deps/version.go:99-157 | The tokens of a spelling do not depend on the separators used |
| `VersionText.RevisionedBack` | deps/version.go:69-166 | A spelling with a revision parses to the slots of its tokens and that revision |
| `VersionText.NumeralsBack` | deps/version.go:69-166 | n1.n2...nk-r parses back to exactly those components and that revision |
| `VersionText.PlainNumeralsBack` | deps/version.go:69-166 | n1.n2...nk parses back to exactly those components and no revision |
| `VersionText.StageOrder` | deps/version.go:16-43 | base-alphaN < base-betaN < base-preN < base-rcN < base, whatever the suffix numbers below 10^8 |
| `VersionText.StageOrderOnText` | deps/version.go:69-230 | The same on version strings through ParseVersion and Compare |
| `VersionText.DevelopmentOrder` | deps/version.go:16-43 | cvs < scm < dev, all above every version whose first component is below 10^8 |
| `Constraints.ConvexExactly` | deps/constraint.go:149-170 | `~>` selects a set without gaps if and only if it names no revision |
| `Constraints.Complements` | deps/constraint.go:111-147 | == and ~=, < and >=, > and <= are exact complements, and equality implies both weak operators |
| `Constraints.FormatBack` | deps/constraint.go:46-99 | A printed constraint list parses back to itself |
| `Constraints.ParseConstraints` | deps/constraint.go:71-99 | The loop over the remaining text, errors included |
| `Constraints.Matches` | deps/constraint.go:101-109 | The loop over the constraints |
| `Constraints.PartialMatches` | deps/constraint.go:149-170 | The prefix loop with missing components read as zero |
| `ConstraintMeaning.OperatorMeaning` | deps/constraint.go:111-141 | What each operator accepts, by the first component that differs and by the revisions when both have one; an unknown operator accepts nothing |
| `ConstraintMeaning.WrittenMeaning` | deps/constraint.go:71-109 | From text to text: a release accepts a constraint list, written with any spelling of the operators, "@", blanks and commas, if and only if it meets each constraint as numbers compare, place by place |
| `ConstraintMeaning.ConstraintOnly` | deps/constraint.go:76-92 | Nothing else is read as a constraint: an optional "@", operator characters and a version, with blanks before and between them and blanks and commas behind, and what is left stands on one line |
| `ConstraintMeaning.OperatorKnown` | deps/constraint.go:13-24 | A constraint list is read only where each operator is a known spelling and each version parses |
| `Selection.ScanUnbeaten` | client/client.go:616-633 | The scanning pick matches, and no matching candidate is strictly newer, on all versions |
| `Selection.SortBeatenExactly` | deps/resolver.go:270-288 | On a given sequence of up to 20 candidates the sorting pick is beaten if and only if, among those of the newest components in order, the first without a revision has revisioned ones before it and behind it a higher revision than all of those |
| `Selection.SortUnbeatenExactly` | deps/resolver.go:270-288 | So some order of up to 20 candidates gives a beaten pick if and only if a higher revision, a lower one and a version without revision share the newest components |
| `HiddenRevision.MissesNewest` | deps/resolver.go:270-288 | Whoever offers 1.0-1, 1.0.0 and 1.0.0-2 of a rock, in the order of the keys in which an index hands them over, the condition holds: the sorting pick is 1.0-1, which 1.0.0-2 beats, and the scanning pick is 1.0.0-2 |
| `Selection.UniformAgree` | deps/resolver.go:270-288 | On candidates that all carry revisions, or none does, both picks are the first of the newest, for any number of candidates and whichever way the library sorts |
| `Selection.ScanNewest` | client/client.go:616-633 | The scanning loop |
| `Selection.SortedNewest` | deps/resolver.go:270-288 | Filter, stable sort by insertion in place, head |
| `Sorting.SliceStable` | deps/resolver.go:283-285 | The in-place stable sort as the library runs it on up to 20 elements |
| `Sorting.StableIsSorted` | deps/resolver.go:283-285 | On a strict weak order of any length, every ordered and stable arrangement is the one insertion sort gives |
| `Sorting.ScanSorted` | client/native_download.go:284-299 | On every strict order a scan for the best element picks the same one before and after the insertion sort |
| `Sorting.SortedKeeps` | remote/search.go:399-419 | Elements of which none is less than another keep their order |
| `DependencyResolver.Resolve` | deps/resolver.go:66-96 | Terminates on every finite closed universe of names with a plan that meets all dependencies in order, or with an error that is true of the first dependency that stops the walk; either way every pick is what the index gives for a dependency reached from the root, and each name is queried and fetched at most once |
| `DependencyResolver.PlanIsSound` | deps/resolver.go:66-96 | A plan has no rock twice and none the VM provides; every dependency of the root or of a step matches the version the VM provides, or else an installed one or a strictly earlier step; and every step is reached from the root by a path of unmet dependencies, each the pick of the index |
| `DependencyResolver.CycleIsReal` | deps/resolver.go:200-202 | A reported cycle is one: the chain leads from the root to the loop and round it back to the name, every rock on it is what the index gives for an unmet dependency of the one before, and none of the loop is finished |
| `PlanMeaning.PlanInstalls` | deps/resolver.go:217-256 | Read off index, fetcher, VM and tree: each step has the name, version and URL of the first newest row that some dependency accepts, its rockspec is the one of that row or else the fetched one, and what that rockspec declares is met by the VM, by the tree or by the steps before it |
| `PlanMeaning.PlanIsDepthFirst` | deps/resolver.go:175-266 | A plan is the depth-first unfolding of the dependencies of the root: nothing for one that is met, else the steps its choice needs and then that choice |
| `PlanMeaning.PlanIsUnique` | deps/resolver.go:66-96 | Two plans for one root are equal |
| `PlanMeaning.ErrorsAreTrue` | deps/resolver.go:176-240 | Each error is so of a dependency that the root or a picked rock declares: no version matches, the query or the fetch of a matching row failed, the VM provides another version, or another version was chosen |
| `DependencyResolver.Resolver.Walk` | deps/resolver.go:175-266 | One call of walk: what was finished stays, the chain is restored, every listed dependency is met; or an error true of the picks left in the fields |
| `DependencyResolver.Resolver.WalkOne` | deps/resolver.go:176-215 | The checks in their order, each error excluding the ones before it: cancellation, VM, installed, cycle, conflict; the fields change only for a new name |
| `DependencyResolver.Resolver.Enter` | deps/resolver.go:217-248 | Marking, querying, picking, fetching and choosing |
| `DependencyResolver.Resolver.Finish` | deps/resolver.go:250-263 | Recursing below a pick and recording it in post-order |
| `DependencyResolver.Resolver.PickRock` | deps/resolver.go:219-240 | The newest match with its rockspec, or why there is none: the query failed, no row matches, or fetching the picked row failed |
| `DependencyResolver.Resolver.InstalledSatisfies` | deps/resolver.go:159-171 | Whether an installed version meets the dependency |
| `ProviderLists.UpsertProvider` | client/client.go:476-489 | The accumulating loop and the place of the token |
| `ProviderLists.UpsertDistinct` | client/client.go:476-489 | The list keeps its other tokens, has no duplicate and is not empty |
| `ProviderLists.Compact` | client/client.go:529-536 | The compaction in place of one list |
| `ProviderLists.RemoveProvider` | client/client.go:528-544 | Every list without the token, emptied lists gone |
| `ProviderLists.CutToken` | client/client.go:549-561 | A token gives back the rock name and version it was made of when the name has no slash |
| `ProviderLists.HighestVersion` | client/client.go:510-519 | The greatest version string, whatever the iteration order |
| `TreeIndex.ResolveInstalledDeps` | client/client.go:497-523 | The declared dependencies that are installed, each with its greatest version string |
| `TreeIndex.TreeManifest.Record` | client/native.go:974-994 | What deployRock does to the manifest after a deployment |
| `TreeIndex.TreeManifest.Remove` | client/native.go:1016-1054 | What Remove does to the manifest, or that it fails and changes nothing |
| `TreeIndex.TreeManifest.RemoveVersions` | client/native.go:1037-1054 | The loop over the versions, in any order, and the clean-up |
| `TreeRuns.AfterRun` | client/native.go:905-1054 | After every run of installs and removes from an empty tree the manifest file can be read; no provider list is empty or has duplicates, every token names an installed version, and dependencies and repository list the same names and versions |
| `TreeRuns.NextRead` | client/native.go:788-815 | What an operation reads is exactly what the one before made of the manifest, up to what constraints lose; a failed one changes nothing |
| `TreeRuns.DeployedGood` | client/native.go:974-994 | An install keeps a good manifest good |
| `TreeRuns.RemovedGood` | client/native.go:1016-1054 | A removal keeps a good manifest good |
| `TreeRuns.RemoveUndoesInstall` | client/native.go:974-1054 | Removing what was just installed for the first time gives the manifest of before |
| `TreeRuns.ActiveIsInstalled` | client/client.go:549-561 | The active provider of an item is an installed version, and none is found only when the item has no list |
| `TreeRuns.GoodFileBack` | manif/store.go:55-90 | Written and read, a good manifest keeps its repository, modules and commands |
| `TreeHistory.RunRecords` | client/native.go:905-1054 | After every run the manifest lists exactly the versions whose last operation was an install, each with the modules and commands of that install |
| `TreeHistory.RunDeclares` | client/native.go:980-992 | The dependency table declares for each version that stands what its last install declared |
| `TreeHistory.RunProvides` | client/native.go:960-978 | The providers of a module or command are the versions deployed with it and not removed since |
| `TreeHistory.EntriesAreListed` | client/native.go:955-978 | Whatever module or command an entry records, the index lists its version for it |
| `TreeHistory.InstallTells` | client/native.go:955-996 | Right after an install its entry has the modules and commands deployed and of each declared rock that stands the highest version, and the version heads the lists of its modules and commands |
| `TreeHistory.RecordedWasInstalled` | client/client.go:497-523 | Every dependency that an entry records is a version the run has installed |
| `TreeHistory.StaleExactly` | client/native.go:955-978 | A version is listed for a module or command that its entry does not have if and only if an earlier deployment since the last removal had it and the last one has not |
| `TreeHistory.RedeployedIsStale` | client/native.go:955-978 | Deploying a version again without a module that it had leaves it listed for that module |
| `Confluence.InstallsSettle` | tree/conflicts.go:28-62 | After any sequence of installs of a lua or lib module without provider, the smallest rock name with its highest version heads the list and owns the plain path, and every other rock has its file at its own munged path |
| `Confluence.OrderIrrelevant` | tree/conflicts.go:28-62 | Two sequences of installs of the same claims, in any orders and from any starts, agree on list head, plain file and munged files |
| `Confluence.FirstOfTieStays` | tree/conflicts.go:31-33 | Versions of one rock that tie are outside the rule: the first installed keeps the plain path |
| `Confluence.IndexedWhenPlain` | tree/conflicts.go:160-183 | The module is indexed exactly when its file took the plain path |
| `Confluence.MungedApart` | tree/conflicts.go:129-133 | Distinct munged names give distinct paths, neither of them the plain one |
| `Confluence.NextInstall` | client/native.go:953-972 | One more install: the winner of all claims so far owns the plain path again |
| `Confluence.BeatsTransitive` | tree/conflicts.go:31-33 | The precedence of claims is transitive |
| `Conflicts.Tree.ResolveSpot` | tree/conflicts.go:28-62 | The target chosen, the demotion of another provider, the backup of an untracked file |
| `Conflicts.ModuleNameBack` | tree/conflicts.go:102-111 | The path a module is deployed to names that module again if and only if its name has no slash and no dot at either end |
| `Conflicts.ModuleIndex` | tree/conflicts.go:160-183 | The modules of the files that are not munged, a lib file winning over a lua file, whatever the iteration order |
| `Conflicts.GreaterIsStrict` | tree/conflicts.go:85-97 | A strict order on version strings, the reverse of Compare on those that parse; strings that do not parse are related to none |
| `SpotMeaning.SpotMoves` | tree/conflicts.go:28-62 | Path by path: the plain path is taken when nothing provides the module, when the rock itself does, or when it outranks the provider by name or else by version; the file there is backed up, overwritten, or moved to the provider's versioned name, and no other file changes |
| `SpotMeaning.VersionedName` | tree/conflicts.go:116-134 | A versioned name is the rock, "_" and the version, with dots and hyphens made "_", then "-" and the path below the directory |
| `SpotMeaning.ModuleOfFile` | tree/conflicts.go:102-111 | The module of a file is its path without the extension, with dots for slashes and without dots at its ends |
| `SpotMeaning.IndexMeaning` | tree/conflicts.go:160-183 | The index has each module of the files that stand under their own names, with a lib file if there is one and else with a lua file, and no other module |
| `SpotMeaning.ProviderMeaning` | tree/conflicts.go:67-81 | The active provider heads the list of modules, or else of commands; for base.init that nothing provides it is the one of base |
| `VMPool.NoVMServesTwice` | client/lua.go:727-774 | In every interleaving of any number of calls no VM serves two dispatches, and one that has served is in its dispatch or closed, never parked or handed out |
| `VMPool.NothingLeftBehind` | client/lua.go:771-774 | When all calls have returned no warm-up runs and the open VMs are the parked ones, at most one |
| `VMPool.CallsReturn` | client/lua.go:727-774 | Without new calls every run is finite, and one that cannot go on has returned from every call, or the WaitGroup has panicked |
| `VMPool.NoDeadlock` | client/lua.go:727-774 | While a call is not over some call or warm-up can go on, unless the WaitGroup has panicked |
| `VMPool.StepKeeps` | client/lua.go:727-774 | Every step keeps each open VM with exactly one holder, the log without repeats, the WaitGroup counter exact, and at counter zero one warm-up about to release the waiters |
| `PoolCrashes.CrashNeedsOverlap` | client/lua.go:749-774 | A run in which the WaitGroup panics overlaps: some call starts its warm-up at counter zero while another that waited has not come back from its wait |
| `PoolCrashes.OverlapCanCrash` | client/lua.go:749-774 | Where a step overlaps, that step panics or the woken call, if it runs next, does |
| `PoolCrashes.CrashExactly` | client/lua.go:727-774 | In any state that keeps the invariant the calls under way can bring about a panic if and only if a woken call finds the WaitGroup in use, or some call has its warm-up still to start while another has its own to start, is in its wait, or is on the way to it with warm-ups running |
| `PoolCrashes.SafeExactly` | client/lua.go:727-774 | For every n: callers that keep at most n calls under way never see a panic, in any run, if and only if n is at most 1 |
| `PoolCrashes.QuietCallsReturn` | client/lua.go:727-774 | A run without overlap that cannot go on without new calls has returned from every call |
| `PoolCrashes.OneByOneIsSafe` | client/lua.go:727-774 | Runs in which each call begins when the ones before it have returned never panic |
| `PoolCrashes.BurstCrashes` | client/lua.go:727-774 | Two calls at a time suffice: the first waits and is woken, the second starts its warm-up, and the first panics in Wait |
| `ManifestCaches.RunsAnswerFresh` | remote/remote.go:193-252 | In any sequence of loads through any indexes sharing one cache, each answers as a load without caches, when loads that share the cache under one key would find the same without it |
| `ManifestCaches.AnswersFreshExactly` | remote/remote.go:193-252 | In any sequence of loads each one answers as a load without caches if and only if it shares no cache, or the first load before it that found something under its shared key found the same |
| `ManifestCaches.OwnFormAgrees` | remote/index.go:45-63 | Loads agree when no HTTP index with the shared cache is given a local directory, as in the indexes that NewIndex makes |
| `ManifestCaches.DirectoryOverHTTP` | remote/remote.go:193-217 | Given one after a file index has loaded it, an HTTP index answers from the shared cache: as a fresh load exactly when the server gives the same manifest over HTTP |
| `ManifestCaches.DecodedOnce` | remote/cache.go:27-53 | Two loads that both decode have different (server, namespace, Lua version) when they go through one index or through two that share the cache |
| `ManifestCaches.CachedIsFresh` | remote/remote.go:193-252 | A load through faithful caches answers as a fresh one and leaves them faithful; a failed load leaves them unchanged |
| `ManifestCaches.FileCachedIsFresh` | remote/file.go:164-246 | The same for the index of a local directory |
| `ManifestCaches.MemoKeyApart` | remote/remote.go:198-201 | The memo key tells servers and namespaces apart when no server name holds a NUL |
| `ManifestCaches.LoadFresh` | remote/remote.go:222-252 | The loop over the probes: the first that is there and decodes |
| `LoadMeaning.LoadReads` | remote/remote.go:218-285 | Which files a load reads: the folder of the server or of its namespace, in it the zipped and the plain manifest of the Lua version, the plain one and the one in JSON, and the first that can be read is taken |
| `LoadMeaning.DirectoryMeaning` | remote/file.go:44-62 | A server is a directory when it has the file scheme, in any case, or no scheme at all |
| `LoadMeaning.ProjectBack` | remote/remote.go:452-516 | What a manifest lists of rocks, versions and arches is what the load takes from it |
| `ManifestCaches.HTTPRemoteIndex.Load` | remote/remote.go:193-252 | The result and both caches afterwards |
| `ManifestCaches.FileRemoteIndex.Load` | remote/file.go:164-246 | The result and both caches afterwards |
| `ManifestCaches.HTTPRemoteIndex.Query` | remote/remote.go:106-161 | The answer over all servers is the one without caches, and the caches stay faithful, when the shared cache is to hold what this index finds |
| `ManifestCaches.FileRemoteIndex.Query` | remote/file.go:114-157 | The answer over the one directory is the one without caches |
| `RemoteManifests.PickMeaning` | remote/remote.go:175-186 | The last binary rock; without one the first source rock; without that the first offering |
| `RemoteManifests.PickMergedItem` | remote/remote.go:175-186 | The picking loop |
| `RemoteManifests.MergeServer` | remote/remote.go:133-147 | One server more in the merged offerings, whatever the iteration order |
| `RemoteManifests.MakeRows` | remote/remote.go:337-374 | One row for each version that parses, in the order of the keys, and whether one did not parse |
| `RemoteManifests.FilterArches` | remote/remote.go:522-538 | The accepted arches in order |
| `ArtifactURLs.FileBack` | remote/remote.go:576-588 | Reading the URL of an artifact gives the place below the server, the name and version, and the arch it was made from, in all three shapes |
| `ArtifactURLs.SplitBack` | client/native.go:494-495 | The name and the version of a file name can be told apart when the version is a body without hyphens and a revision |
| `ArtifactURLs.KindBack` | client/native.go:496-510 | Install tells the kind of the artifact from its URL as its arch says |
| `RowMeaning.QueryMeaning` | remote/remote.go:106-161 | A query gives one row for each version that some server offers and that parses, in the order of the version strings; each row leads to the preferred offering, a built rock before a source rock before a bare rockspec; it fails without servers, or without rows when a load or a version failed |
| `SearchMeaning.ManifestMeaning` | remote/search.go:204-267 | The rows of a manifest are exactly the offerings whose name, version and arch are asked for, each with the URL of its file |
| `SearchMeaning.SearchFinds` | remote/search.go:126-165 | A search finds the offerings asked for on every server up to the first that has the very version asked for, and the rocks of the VM; it fails when it finds nothing and a server could not be read |
| `RockSearch.Search` | remote/search.go:126-165 | The rows over the servers, the early stop on an exact match, the VM rows and the final order, with caches that stay faithful |
| `RockSearch.MatchManifest` | remote/search.go:204-267 | The nested loops over names, versions and arches |
| `RockSearch.ProvidedMeaning` | remote/search.go:286-325 | One row for each rock the VM supplies that matches, names up, and none in a namespace or when installed rocks are not asked for |
| `RockSearch.SortMatches` | remote/search.go:399-419 | The rows rearranged: names up, versions of a name down when they all carry revisions or none does |
| `RockSearch.AnswerOrder` | remote/search.go:112-125 | Over all servers and names, whichever way the library sorts: the answer has the rows found, names up, versions of a name down, and the rows of one version in the order found |
| `RockSearch.PickLatestVersion` | client/native_download.go:284-325 | The two loops: the best version, then its offering |
| `ArtifactAgreement.InstallAndDownloadAgree` | client/native_download.go:153-206 | For one server, an exact name the VM does not provide, equal constraints and default arches, install and download choose the same artifact or both none, ties included, when Search found at most 20 rows or the versions found all carry revisions or none does |
| `ChoiceMeaning.InstallMeaning` | client/client.go:616-633 | Install fetches the preferred offering of a version that is offered and meets the constraints and that none such is newer than, and nothing exactly when there is none |
| `ChoiceMeaning.DownloadMeaning` | client/native_download.go:284-325 | Download fetches the preferred offering of a newest eligible version too, whatever Search answers, under the conditions on which the two agree |
| `ArtifactAgreement.InstallCandidates` | remote/remote.go:337-374 | Install's matching candidates are one for each version that parses, matches and has an accepted offering, in key order |
| `ArtifactAgreement.DownloadPicks` | client/native_download.go:284-325 | Sorted by insertion and scanned, the rows give the first of the newest eligible versions and its best offering, mixed versions included |
| `ArtifactAgreement.BestIsScan` | client/native_download.go:290-299 | The first loop of pickLatestVersion is the scan for the first of the newest rows |

## Left out

- LuaParser.Parse: a literal with an exponent, with more than five decimals or beyond the decimals above is reported as an outcome of its own, because the float64 that strconv.ParseFloat rounds it to, or its range error, is not modelled; the key -0.0, which is printed with its sign, is taken for 0.
- LuaPanics.ParsePanics: for the same reason a literal outside the modelled numbers ends both readings, so what stands behind it is not reached.
- LuaExact.ReadsExactly: for the same reason a text with such a literal counts as not accepted; errors are told apart only into parse errors, such literals and the panic.
- LuaFaithful.FileBack: what the source makes of a file with an integer beyond 64 bits, a float64, is not modelled.
- ConstraintStore.StoredConstraintMatches: version components that "%.14g" rounds (whole ones from 10^16, others from 10^9) and revisions beyond 2^53, which pass through a float64, are excluded.
- Floats otherwise: rounding, nan and inf.
- Error texts, line and column numbers, logging, md5 computation.
- The positional index of a table past the 64-bit range.
- UTF-8 and Unicode spaces: TrimSpace and EqualFold are modelled on ASCII.
- PathTree.StringMapToNested: the `cur` pointer walking shared maps is a recursive insertion on values; aliasing of the maps on the way is not captured.
- Sorting.SliceStable: the library's insertion sort, which it runs on at most 20 elements; beyond that it merges sorted blocks, with the same result on a strict weak order (`Sorting.StableIsSorted`) and possibly another on other orders.
- Selection.SortBeatenExactly: for the same reason it speaks of at most 20 candidates, and so do `Selection.SortUnbeatenExactly`, `Selection.SortedNewest` and the resolver's pick on candidates with and without revisions.
- ManifestRoundTrip.TreeFileBack: names with a carriage return, which reading folds; `ManifestExactness.TreeFileExactly` covers them, without saying what else is read then.
- DependencyResolver.Resolve: the index, the spec fetcher and the installed lookup are functions of their arguments, the context may be cancelled at any turn, and the names stay in a finite universe closed under dependencies.
- PlanMeaning.PlanInstalls: that no candidate is newer than a step is said of candidates that all carry revisions, or none does; the sorting pick can miss the newest of others (`Selection.SortBeatenExactly`).
- ArtifactURLs.FileBack: rock names, versions and arches with a slash, and arches with a dot, for which a URL cannot be read back; a local path is joined without cleaning.
- TreeHistory.RunProvides: rock names have no slash, as in the runs themselves.
- ManifestCaches.DecodedOnce: loads follow one another; two indexes loading at the same time can both miss the shared cache and both decode, which its mutex does not prevent.
- ManifestCaches.AnswersFreshExactly: an HTTP index is given no server name with a NUL, which its memo key uses as a separator; server contents are fixed and context cancellation is not modelled; zip and JSON decoding are parameters.
- ManifestCaches.RunsAnswerFresh: the same.
- ManifestCaches.HTTPRemoteIndex.Query: the same for its servers.
- ManifestCaches.LoadFresh: a manifest on which the parser panics, or with literals outside the modelled numbers, counts as one that does not decode.
- VMPool.CallsReturn: a panic of the WaitGroup ends the run; the waiters released by one Done are woken together, so that a later waiter takes the wake-up of an earlier one, which needs an overlap as well, is not modelled.
- Confluence.InstallsSettle: files of other modules are assumed to stand elsewhere, a deployment claims the path once, and errors of the file system are not modelled.
- ArtifactAgreement.InstallAndDownloadAgree: more than 20 rows of versions with and without revisions, which the library merges in blocks on an order that is no weak order, are not compared.
- RockSearch.Search: the normalized server name of a row is left out, and a local artifact path is joined without cleaning.
- Conflicts.Tree.ResolveSpot: paths are clean, so joining them needs no further normalization.
- Physical file removal, which trusts the rock manifest as first written; ownership of plain paths is therefore a property of install-only runs.
- Command ownership and command launchers: commands are recorded as active whether or not their file won its path.
- HTTP, git, archives, temporary directories, the embedded Lua VM itself and the scraping of its output.
- Rockspec evaluation, validation and platform merging; build backends.
- Engine delegation, option structs and unimplemented operations.
