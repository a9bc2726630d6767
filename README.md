# hdltools: the simulation Makefile generator and the log verdicts, in Dafny

This project models two pieces of hdltools.

**`genSimMakefile.py`** reads a manifest of VHDL source files and writes a
Makefile that compiles them and runs the simulation. The manifest is sorted
into three groups: `hw:`, `comp:` and `sim:`. It has two backends:

- **Sonata** (Symphony EDA: `vhdlp`/`vhdle`) places each compiled unit under
  `<lib>.sym/<file prefix>/<leaf>.var`.
- **Modelsim** (`vcom`/`vsim`/`vlib`) places each compiled unit under
  `<lib>/<entity or file prefix>/<leaf>.dat`. It also keeps a registry of work
  directories. That registry feeds the `clean` rule and one `<w>/touched`
  bootstrap rule per directory.

**`vhdltest/vhdltest.py`** turns the matches of a simulator's log into Note,
Warning, Error and Failure records. It then gives the test's verdict.

The modules follow the program:

| module | file | what it holds |
|---|---|---|
| `Text` | text.dfy | `str.strip`, `str.split`, `str.lower`, `os.path.basename`, `split(".")[0]`, with their defining properties |
| `Manifest` | manifest.dfy | `parseFile`: a loop over the lines, proved against the functions `Items` and `TopLevelOf` |
| `ParseVhdl` | parsevhdl.dfy | what the generator learns from a file (`Scan`), unit detection, `getEntity`, `getArch`, and the exceptions (`Fault`) |
| `ArtifactPaths` | paths.dfy | `workdir`, `fpre` and each backend's target path; `Resolve` is writeTarget's target or its exception |
| `MakeRules` | makerules.dfy | the Makefile as values: rule blocks, the dependency lists threaded between rules, each loop (`Phase`, `Stage`) and the whole of `genMake` (`Generation`, `Trailer`) |
| `MakefileGen` | generator.dfy | class `Generator`: the two generator classes as one object with fields `lines`, `shared` and `workdirs`, whose methods do what `writeTarget` and `genMake` do, step by step |
| `VhdlTest` | vhdltest.dfy | the two `getMessages` loops, `getBuildErrors` and the two `runTest` verdicts |

How the model represents the program:

- The Makefile is `lines`, one string per line. The file's text is each line
  followed by `"\n"`. Every point where writeTarget can fail comes right after
  a complete line, so a failure always leaves whole lines.
- A source file is a `Scan`. It holds the capture of each of the four searches
  writeTarget and ParseVHDL run on the file, or `None` where a search finds
  nothing.
- The readable files are a map from paths to `Scan`s. A path missing from the
  map is a file that cannot be opened.
- Each exception writeTarget can raise is a `Fault`. The method stops and
  returns the fault, and the lines written before it stay in place.
- Python evaluates writeTarget's default `deplist=[]` once, so every comp and
  sim rule reads, and appends to, the same list. That list is the field
  `shared`.
- The hw loop's own list is a local that writeTarget extends and genMake
  extends again.

The model follows the code, including these behaviours a reader might not
expect:

- A rule's prerequisites are the source paths of its dependencies (`i[0]`),
  not their artifacts.
- comp and sim rules are not independent. Through the shared default list,
  each lists every earlier default-library comp or sim entry. Across
  repeated `genMake` calls it also lists entries from earlier calls.
- In the hw loop, a default-library entry is appended twice: once by
  writeTarget and once by genMake. A library entry is appended once.
- The `toplevel:` name is the stripped line from index 10 on. It is not
  trimmed after the prefix, and its first character after the colon is
  dropped whatever it is.
- Nothing detects two entries that share an artifact (`SonataIgnoresDirectory`
  shows one such case).
- A Modelsim `ps` time is divided by 1000, although a comment there says times
  are always in picoseconds.

## Model

| member | source | states |
|---|---|---|
| `Text.Strip` | genSimMakefile.py:165 | the result is empty exactly when the line is all whitespace; otherwise it is the part of the line between its leading and trailing whitespace, and neither of its ends is whitespace |
| `Text.Split` | genSimMakefile.py:177 | every word is non-empty and free of whitespace; there are no words exactly when the line is all whitespace; the word boundaries are fixed by `SplitBoundaries` |
| `Text.SplitBoundaries` | genSimMakefile.py:177 | the line is the words interleaved with whitespace-only gaps, with a non-empty gap between any two neighbouring words, so the words are exactly the maximal whitespace-free runs |
| `Text.SplitGaps` | genSimMakefile.py:177 | builds those gaps word by word: the first gap is the leading whitespace, the last the trailing whitespace |
| `Text.SplitKeepsText` | genSimMakefile.py:177 | the words, put back together, are the line with its whitespace removed, so splitting loses only whitespace |
| `Text.Lower` | genSimMakefile.py:79 | the definition of `str.lower()` on ASCII text; characterised by `LowerShape` |
| `Text.LowerShape` | genSimMakefile.py:79 | lower-casing leaves no upper-case letter, keeps every other character, and moves each `A`–`Z` to its lower-case letter |
| `Text.Basename` | genSimMakefile.py:78 | the definition of `os.path.basename` on POSIX paths; characterised by `BasenameShape` and `BasenameAfterSlash` |
| `Text.BasenameShape` | genSimMakefile.py:78 | the base name is a `/`-free suffix of the path, preceded by `/` unless it is the whole path |
| `Text.BasenameAfterSlash` | genSimMakefile.py:78 | the base name of `dir/name` is `name` when name has no `/` |
| `Text.Stem` | genSimMakefile.py:79 | the definition of `split(".")[0]`; characterised by `StemShape` |
| `Text.StemShape` | genSimMakefile.py:79 | `split(".")[0]` is the prefix before the first `.`, holds no `.`, and is followed by a `.` unless it is the whole name |
| `Manifest.ReadLine` | genSimMakefile.py:164-177 | a line is skipped exactly when it is all whitespace; it switches to hw, comp or sim exactly when stripped it is `hw:`, `comp:` or `sim:`; it is a `toplevel:` line exactly when the stripped line starts with that prefix, and the name is the stripped line from index 10 on (empty when shorter); every other line is an entry whose tokens are the stripped line's words, each non-empty and whitespace-free |
| `Manifest.Items` | genSimMakefile.py:163-177 | the definition of a group's entries, in manifest order; characterised by `ItemsGrow`, `ItemLands`, `OnlyActiveGroupGrows`, `ItemsFromItemLines` and `ItemsWellFormed`, and computed by `ParseFile` |
| `Manifest.TopLevelOf` | genSimMakefile.py:162-175 | the definition of the top-level name; characterised by `TopLevelIsLast` and `TopLevelDefault`, and computed by `ParseFile` |
| `Manifest.ParseFile` | genSimMakefile.py:155-179 | the loop returns, for each group, the entries of that group in manifest order, and the last `toplevel:` name (`Items`, `TopLevelOf`) |
| `Manifest.ReadStep` | genSimMakefile.py:164-177 | one more line changes the active group only if it is a switch, the top-level name only if it is a `toplevel:` line, and the active group only by its own entry |
| `Manifest.ItemsWellFormed` | genSimMakefile.py:177 | every token of every parsed entry is non-empty and whitespace-free |
| `Manifest.ItemsFromItemLines` | genSimMakefile.py:176-177 | every entry of a group comes from an entry line of the manifest |
| `Manifest.CurrentGroup` | genSimMakefile.py:163-171 | the definition of the list `current` is bound to after some lines; characterised by `CurrentGroupIsLastSwitch` and `CurrentGroupWithoutSwitch` |
| `Manifest.CurrentGroupIsLastSwitch` | genSimMakefile.py:166-171 | the active group is the one named by the last switch line read |
| `Manifest.CurrentGroupWithoutSwitch` | genSimMakefile.py:163 | before any switch line the active group is hw |
| `Manifest.ItemsGrow` | genSimMakefile.py:176-177 | reading more lines only appends to a group: earlier entries keep their places |
| `Manifest.ItemLands` | genSimMakefile.py:176-177 | an entry line lands in the group active when it is read, right after the entries read before it |
| `Manifest.OnlyActiveGroupGrows` | genSimMakefile.py:166-177 | switch, blank and `toplevel:` lines add no entry, and an entry line adds to no group but the active one |
| `Manifest.TopLevelIsLast` | genSimMakefile.py:174-175 | the last `toplevel:` line sets the name |
| `Manifest.TopLevelDefault` | genSimMakefile.py:162 | without a `toplevel:` line the name is empty |
| `ParseVhdl.DetectUnit` | genSimMakefile.py:68-75 | a file is an architecture exactly when archRE matches, with archRE's name; a package exactly when archRE fails and packageRE matches; otherwise writeTarget fails naming the file |
| `ParseVhdl.GetEntity` | genSimMakefile.py:31-41 | succeeds exactly when the entity pattern matches, with the entity's name, case kept; fails naming the file otherwise |
| `ParseVhdl.GetArch` | genSimMakefile.py:42-50 | succeeds exactly when an architecture of that entity is found, with its name lower-cased; fails naming the file and entity otherwise |
| `ArtifactPaths.Workdir` | genSimMakefile.py:81-84 | the definition of a library's directory: `$(WORKDIR)` by default, `<lib>.sym` for Sonata, `<lib>` for Modelsim (lines 220-224); characterised by `SonataLibraryNotDefault` |
| `ArtifactPaths.FilePrefix` | genSimMakefile.py:78-79 | the definition of `fpre`; characterised by `FilePrefixShape` and `SonataIgnoresDirectory` |
| `ArtifactPaths.SonataTarget` | genSimMakefile.py:86-89 | the definition of a Sonata target; characterised by `SonataTargetShape` and `SonataKindsDistinct` |
| `ArtifactPaths.ModelsimPackageTarget` | genSimMakefile.py:226-227 | the definition of a Modelsim package target; characterised by `ModelsimPackageTargetShape` |
| `ArtifactPaths.ModelsimArchTarget` | genSimMakefile.py:228-229 | the definition of a Modelsim architecture target; characterised by `ModelsimArchTargetShape` |
| `ArtifactPaths.Resolve` | genSimMakefile.py:186-229 | the definition of writeTarget's target or exception, for both backends (Sonata at lines 54-89); characterised by `ResolveFails` and `ResolveShape`, and what `WriteTarget` returns |
| `ArtifactPaths.FilePrefixShape` | genSimMakefile.py:78-79 | `fpre` holds no `/`, no `.` and no upper-case letter |
| `ArtifactPaths.ResolveFails` | genSimMakefile.py:186-229 | writeTarget fails exactly when the file cannot be read, holds neither an architecture nor a package, or (Modelsim, architecture) lacks the entity or its architecture; the fault names the file |
| `ArtifactPaths.ResolveShape` | genSimMakefile.py:78-89 | every target lies under `<workdir>/` and ends in `.var` (Sonata) or `.dat` (Modelsim, lines 219-229) |
| `ArtifactPaths.SonataTargetShape` | genSimMakefile.py:78-89 | a Sonata target lies under its library directory and ends in `.var` |
| `ArtifactPaths.ModelsimPackageTargetShape` | genSimMakefile.py:219-227 | a Modelsim package target lies under its library directory and ends in `.dat` |
| `ArtifactPaths.ModelsimArchTargetShape` | genSimMakefile.py:219-229 | a Modelsim architecture target lies under its library directory and ends in `.dat` |
| `ArtifactPaths.SonataKindsDistinct` | genSimMakefile.py:86-89 | a package's and an architecture's Sonata targets from the same file and library differ |
| `ArtifactPaths.SonataLibraryNotDefault` | genSimMakefile.py:81-84 | a named Sonata library never shares the default library's directory |
| `ArtifactPaths.SonataIgnoresDirectory` | genSimMakefile.py:78-79 | two files of the same name in different directories get the same Sonata target |
| `MakeRules.PrereqLine` | genSimMakefile.py:91-94 | the definition of a rule's prerequisite line (with `<workdir>/touched` for Modelsim, lines 231-235); characterised by `SourcesAt`, `PhaseRuleAt` and `TouchedPrereqHasRule` |
| `MakeRules.RecipeLines` | genSimMakefile.py:95-98 | the definition of a rule's recipe (Modelsim's at lines 236-241); what `WriteSonataRule` and `WriteModelsimRule` write |
| `MakeRules.RuleLines` | genSimMakefile.py:80-98 | the definition of one rule block; its length is fixed per backend, and it is what `WriteTarget` writes on success |
| `MakeRules.Header` | genSimMakefile.py:115-119 | the definition of the header lines (Modelsim's at lines 259-263); what `GenMake` writes first |
| `MakeRules.Stage` | genSimMakefile.py:121-128 | the definition of one loop with its blank and aggregate lines; characterised by `DefaultStageStep` and `SonataStage`, and computed by `WriteHwStage` and `WriteDefaultStage` |
| `MakeRules.Generation` | genSimMakefile.py:105-142 | the definition of genMake up to its trailer; characterised by `SonataGeneration`, and computed by `WriteRules` and `GenMake` |
| `MakeRules.Trailer` | genSimMakefile.py:288-303 | the definition of runsim, clean and the bootstrap rules (Sonata's at lines 145-151); characterised by `TouchedRulesAt` and `OneTouchedRulePerWorkdir`, and written by `WriteTrailer` |
| `MakeRules.Chained` | genSimMakefile.py:95-100 | the definition of the `if worklib:` test (also line 236): an entry without a library or with an empty one; characterised by `DefaultsMembers` |
| `MakeRules.Link` | genSimMakefile.py:123-125 | the definition of what one hw turn appends to the hw list: writeTarget's append at line 100 for a chained entry, then genMake's own; characterised by `HwChainCounts` and `HwChainAllChained` |
| `MakeRules.HwChain` | genSimMakefile.py:121-125 | the definition of the hw list after some entries; characterised by `HwChainCounts`, `HwChainAllChained` and `HwChainMembers` |
| `MakeRules.Default` | genSimMakefile.py:95-100 | the definition of what writeTarget appends to the list it was given (line 243 for Modelsim); characterised by `DefaultsMembers` |
| `MakeRules.Defaults` | genSimMakefile.py:54-100 | the definition of the shared default list after some entries: the default `deplist=[]` (line 186 for Modelsim) gains each chained entry; characterised by `DefaultsMembers` and `SharedRuleDeps` |
| `MakeRules.Registered` | genSimMakefile.py:220-224 | the definition of the registration at line 223, which happens before getArch (line 229) and so also after a missing architecture; characterised by `PhaseLibs` and `PhaseHalt` |
| `MakeRules.FailLines` | genSimMakefile.py:219-229 | the definition of what a failing writeTarget leaves behind: Modelsim's blank line when only getArch failed; characterised by `PhaseHalt` and written by `WriteModelsimUnit` |
| `MakeRules.Next` | genSimMakefile.py:123-124 | the definition of one writeTarget call inside a genMake loop; characterised by `NextLines`, `NextTargets` and `NextSucceeds` |
| `MakeRules.SourcesAt` | genSimMakefile.py:92-93 | position k of a rule's prerequisite list is dependency k's source path |
| `MakeRules.Phase` | genSimMakefile.py:123-124 | a loop writes one rule and collects one target per entry; all of them when no entry fails, fewer otherwise |
| `MakeRules.PhaseStops` | genSimMakefile.py:123-124 | once an entry has failed, later entries change nothing: the exception ends the loop |
| `MakeRules.PhaseLoopLines` | genSimMakefile.py:123-124 | what writeTarget writes for entry i extends the loop's lines to those after entry i |
| `MakeRules.PhaseLoopTargets` | genSimMakefile.py:123-124 | entry i's library is registered, and its target extends the aggregate line or its failure ends the loop |
| `MakeRules.NextLines` | genSimMakefile.py:91-98 | a step adds the entry's rule block, or what writeTarget wrote before failing |
| `MakeRules.NextTargets` | genSimMakefile.py:124 | a step adds the target and a space to the aggregate line, or records the failure |
| `MakeRules.ChainSnoc` | genSimMakefile.py:125 | the hw list and the shared default list grow by exactly one entry's appends per step |
| `MakeRules.HwStep` | genSimMakefile.py:123-125 | one turn of the hw loop moves its lines, registry, aggregate line and list to the loop's state after entry i, or to the loop's end when entry i fails |
| `MakeRules.DefaultStep` | genSimMakefile.py:131-132 | one turn of a comp or sim loop does the same with the shared default list |
| `MakeRules.StepSucceeds` | genSimMakefile.py:123-124 | a turn whose entry resolves yields the loop's state after that entry |
| `MakeRules.StepFails` | genSimMakefile.py:123-124 | a turn whose entry fails yields the loop's final state, with that entry's error, and as many targets as entries before it |
| `MakeRules.PhaseHalt` | genSimMakefile.py:123-124 | a failing entry's partial output, library and error are the loop's last |
| `MakeRules.PhaseFailStep` | genSimMakefile.py:123-124 | a failing step keeps the rules and targets and records the error |
| `MakeRules.DefaultStageStep` | genSimMakefile.py:130-135 | a comp or sim loop followed by its blank line and aggregate line (when no entry failed) is one `Stage` |
| `MakeRules.SonataStage` | genSimMakefile.py:121-142 | a Sonata loop registers no work directory |
| `MakeRules.SonataGeneration` | genSimMakefile.py:105-153 | Sonata's genMake registers no work directory |
| `MakeRules.SonataRegistersNothing` | genSimMakefile.py:81-84 | a Sonata loop's registry stays empty, whatever the entries |
| `MakeRules.PhaseRuleAt` | genSimMakefile.py:123-125 | in a loop that succeeds, rule k is entry k's, names entry k's target, and receives the list built from the entries before k |
| `MakeRules.NextSucceeds` | genSimMakefile.py:123-124 | a step that leaves the loop unfailed follows an unfailed loop and resolves its entry |
| `MakeRules.PhaseFirstFault` | genSimMakefile.py:123-124 | a failed loop failed on the first entry after its targets, with that entry's own error, and every earlier entry resolved |
| `MakeRules.HwChainCounts` | genSimMakefile.py:121-125 | the hw list holds each earlier entry once plus each earlier default-library entry once more (as multisets) |
| `MakeRules.HwChainAllChained` | genSimMakefile.py:92-100 | with default-library entries only, the rule for C after A and B lists A A B B |
| `MakeRules.HwChainMembers` | genSimMakefile.py:121-125 | the hw list holds exactly the earlier hw entries |
| `MakeRules.DefaultsMembers` | genSimMakefile.py:95-100 | the shared default list gains exactly the default-library entries, never a library entry |
| `MakeRules.SharedRuleDeps` | genSimMakefile.py:130-132 | a comp or sim rule lists exactly the shared list as it stood before the loop plus the loop's earlier default-library entries |
| `MakeRules.NamedLibsHas` | genSimMakefile.py:223 | every library an entry names is among the named libraries |
| `MakeRules.PhaseLibs` | genSimMakefile.py:220-224 | a Modelsim loop that succeeds registers exactly the libraries its entries name; Sonata registers none |
| `MakeRules.PhaseLibsStep` | genSimMakefile.py:223 | the last step of a loop that succeeds resolved its entry and registered that entry's library |
| `MakeRules.TouchedPrereqHasRule` | genSimMakefile.py:231 | every Modelsim rule's `<workdir>/touched` prerequisite is a directory that gets a bootstrap rule (WORKDIR expanded to `work`) |
| `MakeRules.TouchedRulesAt` | genSimMakefile.py:300-303 | bootstrap rule i is `<w>/touched:`, `vlib w`, `touch w/touched` for the i-th directory |
| `MakeRules.OneTouchedRulePerWorkdir` | genSimMakefile.py:295-303 | each work directory gets exactly one `<w>/touched:` rule and no other directory gets one |
| `MakeRules.HeadCount` | genSimMakefile.py:300-301 | in an order without repeats each directory's rule head occurs once, any other none |
| `MakefileGen.Generator.constructor` | genSimMakefile.py:182-184 | Modelsim's registry starts as `{work}`; Sonata's is empty; nothing written yet |
| `MakefileGen.Generator.WriteTarget` | genSimMakefile.py:186-246 | the outcome is `Resolve`'s; on success the rule block is written, on failure only what came before the failure; the registry gains `Registered`; a default-library entry is appended to the given list |
| `MakefileGen.Generator.WriteSources` | genSimMakefile.py:92-93 | the loop writes each dependency's source path followed by a space |
| `MakefileGen.Generator.WriteSonataTarget` | genSimMakefile.py:54-103 | Sonata's writeTarget: `Resolve`'s outcome, the rule on success, nothing written on failure |
| `MakefileGen.Generator.WriteSonataUnit` | genSimMakefile.py:78-103 | once the unit is known Sonata's writeTarget always succeeds and writes the blank line and the rule |
| `MakefileGen.Generator.WriteSonataRule` | genSimMakefile.py:91-100 | the prerequisite line and recipe; `-work <lib>` only when the library is non-empty; a default-library entry is appended to the list |
| `MakefileGen.Generator.WriteModelsimTarget` | genSimMakefile.py:186-216 | Modelsim's writeTarget: fails before writing when the file, the unit or the entity is missing |
| `MakefileGen.Generator.WriteModelsimUnit` | genSimMakefile.py:219-246 | writes the blank line and registers the library before getArch, so a missing architecture leaves both; otherwise the rule |
| `MakefileGen.Generator.WriteModelsimRule` | genSimMakefile.py:231-243 | the prerequisite line starting with `<workdir>/touched`, `mkdir -p`, and the compile with `-work <lib>` only for a non-empty library |
| `MakefileGen.Generator.WriteHwPhase` | genSimMakefile.py:121-125 | the hw loop's lines, registry and aggregate line are those of `Phase` over the hw entries with the hw list |
| `MakefileGen.Generator.WriteDefaultPhase` | genSimMakefile.py:130-132 | a comp or sim loop's lines, registry and aggregate line are those of `Phase` with the shared list, which gains the default-library entries that resolved |
| `MakefileGen.Generator.WriteEntry` | genSimMakefile.py:123-125 | one call of writeTarget from a genMake loop, with the target added to the aggregate line and, in the hw loop, the entry appended again |
| `MakefileGen.Generator.ListWorkdirs` | genSimMakefile.py:295-296 | the set's iteration yields every work directory exactly once |
| `MakefileGen.Generator.GenMake` | genSimMakefile.py:248-306 | warns exactly when the top-level name is blank; the Makefile is `Generation`'s lines, followed on success by runsim, clean and the bootstrap rules in one iteration order of the registry; on failure it stops with the first entry's error |
| `MakefileGen.Generator.WriteRules` | genSimMakefile.py:265-286 | the three loops with their aggregate lines are `Generation`'s; Sonata's registry is unchanged |
| `MakefileGen.Generator.WriteHwStage` | genSimMakefile.py:265-272 | the hw loop followed by a blank line and `hw: …` is the hw `Stage` |
| `MakefileGen.Generator.WriteDefaultStage` | genSimMakefile.py:274-279 | a comp or sim loop followed by its aggregate line is that `Stage` |
| `MakefileGen.Generator.WriteTrailer` | genSimMakefile.py:288-303 | runsim, clean (`*.sym` for Sonata, every work directory for Modelsim) and one bootstrap rule per work directory |
| `MakefileGen.Generator.WriteWords` | genSimMakefile.py:294-296 | the loop writes each directory followed by a space |
| `VhdlTest.DigitsValue` | vhdltest/vhdltest.py:179 | the definition of `long()` on a decimal digit string; characterised by `DecimalRoundTrip` and `DigitsRoundTrip` |
| `VhdlTest.DecimalRoundTrip` | vhdltest/vhdltest.py:179 | reading back the decimal rendering of n gives n |
| `VhdlTest.DigitsRoundTrip` | vhdltest/vhdltest.py:179 | a digit string without a leading zero is the decimal rendering of the value `long` reads from it |
| `VhdlTest.ModelsimTime` | vhdltest/vhdltest.py:179-182 | a `ps` time is divided by 1000 rounding down (bounded above and below); any other unit is kept |
| `VhdlTest.ModelsimMessage` | vhdltest/vhdltest.py:166-184 | the record's class is the one the keyword names, in both directions; text is the first message group; source is `<Process/Instance>:<path>`; time is `ModelsimTime` of the digits and the unit |
| `VhdlTest.GetModelsimMessages` | vhdltest/vhdltest.py:160-188 | one record per match, in match order |
| `VhdlTest.LevelsKnown` | vhdltest/vhdltest.py:242-253 | each level the pattern admits lower-cases to the matching known level, so the UNKNOWN MESSAGE raise is unreachable |
| `VhdlTest.SymphonyMessage` | vhdltest/vhdltest.py:242-274 | the class follows the level in both directions; a note keeps the location as text and time 0, a failure the message and time 0, a warning or error the message and the location as its time |
| `VhdlTest.GetSymphonyMessages` | vhdltest/vhdltest.py:234-277 | one record per match, in match order |
| `VhdlTest.GetBuildErrors` | vhdltest/vhdltest.py:226-232 | one `("Error", rest)` pair per match, in order |
| `VhdlTest.Errors` | vhdltest/vhdltest.py:156 | the definition of the `filter` of Error records (also line 221); characterised by `ErrorsExactly` |
| `VhdlTest.ErrorsExactly` | vhdltest/vhdltest.py:156 | the filter keeps exactly the Error records; it is empty exactly when no record is an Error |
| `VhdlTest.ModelsimVerdict` | vhdltest/vhdltest.py:156-158 | the definition of the Modelsim verdict: the first failing assertion's message, or a pass; characterised by `ModelsimPassesIff` and `ModelsimIgnoresNonErrors` |
| `VhdlTest.SymphonyVerdict` | vhdltest/vhdltest.py:220-224 | the definition of the Symphony verdict; characterised by `SymphonyPassesIff` |
| `VhdlTest.ModelsimPassesIff` | vhdltest/vhdltest.py:156-158 | the Modelsim test passes exactly when no record is an Error and the build status is 0 |
| `VhdlTest.ModelsimIgnoresNonErrors` | vhdltest/vhdltest.py:156-158 | a Note, Warning or Failure record never changes the Modelsim verdict |
| `VhdlTest.SymphonyPassesIff` | vhdltest/vhdltest.py:220-224 | the Symphony test passes exactly when no match has level ERROR and the log has no `Error: ` match |

## Left out

- File I/O: reading source files is the map from paths to `Scan`s. Writing and closing the Makefile is the field `lines`, which genMake's `'w'` open empties first.
- Regular expressions: archRE, packageRE, the entity and architecture-of-entity patterns, and the three log patterns are not modelled. Their captures are inputs (`Scan`, `ModelsimMatch`, `SymphonyMatch`, the text after `Error: `). `packageRE`'s captured name is unused, as in the source.
- Path syntax: `Basename` follows POSIX `os.path` (only `/` separates directories). Under Windows Python `os.path` is `ntpath`, which also splits at `\` and drops a drive prefix such as `C:`; the generated recipes (`mkdir -p`, `rm -Rf`, `touch`) assume a POSIX shell.
- Python set iteration order: the clean line and the bootstrap rules follow one order that `ListWorkdirs` picks freely. `GenMake` states only that the order lists each work directory once.
- The module-level script (`sys.argv`, the choice of Modelsim), and `parseFile` reading the global `filename`: `ParseFile` takes the manifest's lines.
- The missing-toplevel `print` is the out-parameter `warned` of `GenMake`.
- The exception itself: a failing writeTarget is a `Fault` that `GenMake` returns. The file is left unclosed in Python; buffering is not modelled.
- MakefileGen.Generator.constructor: starts `shared` empty. In Python the default list belongs to the class's writeTarget and outlives an instance, so `GenMake` is stated for whatever `shared` holds when it is called.
- The vhdltest process plumbing (`setUp`, `tearDown`, `os.chdir`, `os.system`, `os.popen2`, `createDoFile`, the unittest runner, prints): the verdicts take the messages, the build status and the build errors as inputs.
- VhdlTest.GetModelsimMessages: requires every match to carry one of the four keywords and a digit string, which the log pattern guarantees. A match outside it would crash on `msg.text` or `long(...)`, and that crash is not modelled.
- VhdlTest.GetSymphonyMessages: requires every level to be one of the four the log pattern admits. The UNKNOWN MESSAGE raise for any other level is not modelled (`LevelsKnown`).
- Integer width: Python 2 `long` is unbounded, like Dafny's `int`. Division by 1000 of a non-negative number rounds down in both.
