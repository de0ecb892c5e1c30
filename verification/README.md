# Xymon dependency tooling and mail acknowledgement, modelled in Dafny

This project models two parts of the Xymon repository.

The first part is the Python tooling that keeps the CI dependency data consistent:

- `ci/deps/check-deps.py` validates the structure of the three dependency documents (`deps-client.yaml`, `deps-localclient.yaml`, `deps-server.yaml`). It then checks the completeness of the client and server documents and reconciles each client packager's resolved package list against the package scripts. It also cross-checks the CMake linkage, reads the runtime tools, and checks workflow files, BSD package-manager keys and `packages-from-yaml.sh` coverage.
- `ci/deps/packages-from-yaml.py` prints the resolved package list for one family, OS and package manager. Before resolving, it applies the LDAP and SNMP switches.
- `scripts/ci/check-deps.py` is the older structural checker. It requires `linux_github/ubuntu_latest` and the three BSD OS entries.
- `ci/deps/tools/generate-packages.py` flattens the documents into `variant:family:os:pkgmgr` keys. It then writes three sorted bash tables.

The second part is C code:

- The PCRE1-over-PCRE2 shim in `include/xymon_pcre.h`: `pcre_exec`'s copy of the match offsets and `pcre_copy_substring`.
- `xymond/xymon-mailack.c`, the filter that turns a reply mail into a `xymondack` message.

YAML documents are `Py.Value` trees. A mapping is an insertion-ordered association list with string keys. Python's dynamic failures (`KeyError`, `TypeError`, `AttributeError`, and `CalledProcessError` from a failing subprocess) are `Result.Raised`. A `require` failure is a `Schema.Verdict.Reject` naming the missing key path. Anything outside the modelled code becomes a parameter:

- shell scripts and subprocess results;
- regular-expression searches;
- `pcre2_match`'s result;
- `durationvalue`.

Modules:

- `Text`: strings, sorting, split/join.
- `Py`: the Python value model.
- `Schema`: `require`, fail-fast verdicts, `load_yaml`.
- `DepsResolve`, `DepsSchema`, `DepsReconcile`, `DepsWorkflow`, `DepsCMake`, `DepsRuntime` and `DepsCheck`: `ci/deps/check-deps.py`.
- `PackagesFromYaml`: `ci/deps/packages-from-yaml.py`.
- `ScriptsCheckDeps`: `scripts/ci/check-deps.py`.
- `GeneratePackages`: `ci/deps/tools/generate-packages.py`.
- `Pcre`: `include/xymon_pcre.h`.
- `MailAck`: `xymond/xymon-mailack.c`.

## Model

| member | source | states |
|---|---|---|
| Schema.Require | ci/deps/check-deps.py:39-42 | a requirement passes exactly when its condition evaluates to true; false rejects with the given error, and a condition that raises crashes with that exception |
| Schema.FirstFailure | ci/deps/check-deps.py:45-79 | requirements run in order: the result accepts iff every one accepts, otherwise it is the first failing verdict |
| Schema.FirstFailureAt | ci/deps/check-deps.py:45-79 | the failure reported is the one at the first index that fails when all before it held |
| Schema.PackagerAccepts | ci/deps/check-deps.py:62-70 | the per-packager requirements accept exactly a mapping whose `libs` is a container holding `mandatory` |
| Schema.PackagersAccept | ci/deps/check-deps.py:62-70 | the loop over `packagers.items()` accepts exactly when the value is a mapping and every packager is well formed |
| Schema.Load | ci/deps/check-deps.py:27-36 | `load_yaml` yields the root exactly when the file parses to a mapping; any other outcome is exit status 2 |
| DepsResolve.ResolveAlias | ci/deps/check-deps.py:328-332 | an alias in a mapping `aliases` table is replaced by its target; any other name is returned unchanged |
| DepsResolve.ResolveItem | ci/deps/check-deps.py:353-364 | one token yields at least one item; a token with no non-empty mapping for the family, OS and package manager is kept as it is |
| DepsResolve.ResolveItems | ci/deps/check-deps.py:351-365 | the empty list resolves to the empty list; the result is never shorter than the input; it raises iff some token's lookup raises |
| DepsResolve.ResolveAppend | ci/deps/check-deps.py:353-364 | resolution distributes over concatenation: each token's replacement is independent of the others |
| DepsResolve.PassThroughInPlace | ci/deps/check-deps.py:364 | an unmapped token stays in its place between the resolutions of its neighbours |
| DepsResolve.ReplacedInPlace | ci/deps/check-deps.py:360-363 | a mapped token is replaced in place by its whole non-empty package list |
| DepsResolve.ResolveTotal | ci/deps/check-deps.py:344-365 | when the `map` block has nested mappings with list leaves, resolving string tokens never raises |
| DepsResolve.ResolveTokenTotal | ci/deps/check-deps.py:353-364 | one string token resolves without raising when every level of the `map` block it reaches is a mapping with list leaves |
| DepsSchema.OsAccepts | ci/deps/check-deps.py:53-70 | one OS entry passes exactly when it is a mapping whose `packagers` is well formed |
| DepsSchema.FamilyAccepts | ci/deps/check-deps.py:51-57 | one family passes exactly when it is a mapping of well-formed OS entries |
| DepsSchema.BuildAccepts | ci/deps/check-deps.py:50-70 | the build walk passes exactly when `build` is a mapping of well-formed families |
| DepsSchema.CheckFileAcceptsWellFormed | ci/deps/check-deps.py:45-79 | `check_file` accepts exactly the well-formed documents: build and runtime present, the tree well formed, runtime with libs and tools, version_notes a mapping if present |
| DepsSchema.MissingBuildReported | ci/deps/check-deps.py:47 | a document without `build` is rejected for the missing build section |
| DepsSchema.MissingRuntimeToolsReported | ci/deps/check-deps.py:73-75 | with a well-formed build tree and runtime libs but no runtime tools, the report is the missing `runtime.tools` |
| DepsSchema.PackagerCompleteWellFormed | ci/deps/check-deps.py:392-398 | after `check_file` accepted a packager, completeness fails for it exactly when `tools` is missing, and then reports that |
| DepsSchema.OsCompleteWellFormed | ci/deps/check-deps.py:390-398 | on a well-formed OS entry, completeness passes exactly when every packager lists tools |
| DepsSchema.FamilyCompleteWellFormed | ci/deps/check-deps.py:389-398 | on a well-formed family, completeness passes exactly when every packager below it lists tools |
| DepsSchema.DocCompleteWellFormed | ci/deps/check-deps.py:388-402 | on a document `check_file` accepted, the completeness pass succeeds exactly when every packager lists tools |
| DepsReconcile.ToSet | ci/deps/check-deps.py:88-89 | `set(xs)` has exactly the members of the list |
| DepsReconcile.Diff | ci/deps/check-deps.py:87-102 | missing is exactly expected minus actual, extra is exactly actual minus expected, both sorted without duplicates; ok iff the two sets are equal |
| DepsReconcile.Without | ci/deps/check-deps.py:90-91 | the set difference keeps exactly the listed elements outside the dropped set |
| DepsReconcile.DiffMirror | ci/deps/check-deps.py:87-102 | swapping expected and actual swaps the missing and extra listings and keeps ok |
| DepsReconcile.FirstMatch | ci/deps/check-deps.py:456-463 | `next(...)` finds the first candidate with the same set as the actual list, or none when no candidate has it |
| DepsReconcile.Reconcile | ci/deps/check-deps.py:456-477 | a match reports the first matching candidate; a mismatch diffs against the first candidate |
| DepsReconcile.ReconcilePasses | ci/deps/check-deps.py:474-477 | a list passes exactly when some candidate holds its set; a mismatch always fails the diff |
| DepsReconcile.FirstCandidateWins | ci/deps/check-deps.py:456-459 | when the first candidate already matches, it is the one reported |
| DepsReconcile.Clients | ci/deps/check-deps.py:457 | the client lists of the candidates, in order |
| DepsReconcile.Servers | ci/deps/check-deps.py:461 | the server lists of the candidates, in order |
| DepsReconcile.PackageScript | ci/deps/check-deps.py:439 | the Debian family uses `packages-debian.sh` and every other Linux family `packages-gh-debian.sh` |
| DepsReconcile.SplitOs | ci/deps/check-deps.py:440-441 | the distro part has no underscore; distro, underscore and version give the OS name back; without an underscore the version is empty |
| DepsReconcile.LinuxCombo | ci/deps/check-deps.py:445-455 | one switch pair's client and server script calls: both outputs when both calls succeed, `CalledProcessError` iff either fails |
| DepsReconcile.LinuxExpected | ci/deps/check-deps.py:442-455 | succeeds iff all eight script calls exit zero; then four candidates in loop order, each the script output for its ldap and snmp switch pair |
| DepsReconcile.SwitchesCovered | ci/deps/check-deps.py:443-444 | the four candidates cover every ON/OFF pair of the two switches, each exactly once |
| DepsReconcile.LdapAppend | ci/deps/check-deps.py:489-491 | the LDAP client package is added to the expected server list only when the actual server list has it, and never twice; the expected list stays a prefix |
| DepsReconcile.BsdCombo | ci/deps/check-deps.py:481-492 | one snmp setting's client and server script calls, the server output with the LDAP allowance; raises iff either call fails |
| DepsReconcile.BsdExpected | ci/deps/check-deps.py:479-492 | succeeds iff all four script calls exit zero; then two candidates, snmp ON then OFF, with the LDAP allowance applied to the server list |
| DepsReconcile.LdapAllowance | ci/deps/check-deps.py:489-491 | the allowance never rejects a list the script already matched, lets through exactly the LDAP package as an extra, and changes nothing when the actual list lacks it |
| DepsReconcile.PackagerOk | ci/deps/check-deps.py:456-477 | a packager passes iff some candidate matches its client set and some candidate matches its server set |
| DepsWorkflow.NormalizeToken | ci/deps/check-deps.py:315-316 | the normal form holds only lower-case letters and digits and is never longer than the token |
| DepsWorkflow.NormalizeAppend | ci/deps/check-deps.py:315-316 | normalisation works character by character, so it distributes over concatenation |
| DepsWorkflow.NormalizeFixedPoint | ci/deps/check-deps.py:315-316 | a string is its own normal form iff it consists only of lower-case letters and digits |
| DepsWorkflow.NormalizeIdempotent | ci/deps/check-deps.py:315-316 | normalising twice is normalising once |
| DepsWorkflow.NormalizeIgnoresCase | ci/deps/check-deps.py:316 | two spellings that differ only in ASCII case normalise alike |
| DepsWorkflow.StepHits | ci/deps/check-deps.py:212-221 | every hit is a wanted run string of a step; every step with a wanted string `run` is a hit |
| DepsWorkflow.JobSteps | ci/deps/check-deps.py:194-197 | a job's steps can be read exactly when the job is a mapping |
| DepsWorkflow.JobHits | ci/deps/check-deps.py:212-221 | the walk over the jobs succeeds iff every job is a mapping, and returns only wanted run strings |
| DepsWorkflow.FindSteps | ci/deps/check-deps.py:207-222 | without a mapping `jobs` there are no hits; every hit is a wanted run string |
| DepsWorkflow.JobHitsComplete | ci/deps/check-deps.py:212-221 | every step of every job whose `run` is wanted is found |
| DepsWorkflow.ParseWorkflow | ci/deps/check-deps.py:179-186 | a workflow that loads to a mapping is that mapping; anything else reads as `{}` |
| DepsWorkflow.AllMentioned | ci/deps/check-deps.py:616-623 | the required flags or env names pass iff each occurs in the workflow text |
| DepsWorkflow.FamilyAccepted | ci/deps/check-deps.py:625-637 | a distro family passes iff `accepts.family` is empty or lists it, and the client build tree has it; a family outside a non-empty list fails |
| DepsWorkflow.SnippetOk | ci/deps/check-deps.py:604-610 | a snippet that names no package script, or a script that does not exist, is skipped |
| DepsWorkflow.WorkflowOk | ci/deps/check-deps.py:597-601 | a workflow without package steps passes |
| DepsWorkflow.WorkflowsOk | ci/deps/check-deps.py:594-637 | the workflow section passes iff every workflow file passes |
| DepsWorkflow.MissingFlagFails | ci/deps/check-deps.py:616-619 | a script whose metadata requires a flag the workflow text never mentions fails the workflow |
| DepsWorkflow.FlagsFail | ci/deps/check-deps.py:616-619 | once the flag list holds a flag absent from the workflow text, the script's checks come out false whatever the environment and family checks say |
| DepsWorkflow.AsWrittenChecksNothing | ci/deps/check-deps.py:604-610 | with the script pattern as written, a run snippet without a backslash names no script, so a workflow whose steps are found passes whatever flags and environment its scripts require |
| DepsWorkflow.AsWrittenSkipsFamily | ci/deps/check-deps.py:625-637 | with the family pattern as written, a workflow text without a backslash yields no family, so only the environment loop decides |
| DepsWorkflow.IntendedLocates | ci/deps/check-deps.py:604-610 | with the intended pattern, a snippet that contains a whitespace-free `ci/deps/…packages….sh` path has a script found, and what is found is such a path |
| DepsWorkflow.InstallerPathIntended | ci/deps/check-deps.py:605 | `ci/deps/install-gh-debian-packages.sh` is a path the intended pattern matches |
| DepsWorkflow.InstallerPathMissedAsWritten | ci/deps/check-deps.py:605 | the same path is matched by the intended pattern and not by the pattern as written |
| DepsWorkflow.FamilySearch | ci/deps/check-deps.py:626 | with single backslashes, `re.search` finds a family iff the option is followed somewhere by whitespace and a word, and the group is `split()[0]` of the text after the leftmost such occurrence |
| DepsWorkflow.IntendedFamily | ci/deps/check-deps.py:626 | the intended pattern matches the workflow text iff the option occurs followed by whitespace and a word |
| DepsWorkflow.FamilyCaptureAt | ci/deps/check-deps.py:626 | at a match the group is a whole word, separated from the option by whitespace only |
| DepsWorkflow.IntendedFamilyWord | ci/deps/check-deps.py:626 | the intended capture is a non-empty whitespace-free word after the leftmost matching occurrence of the option |
| DepsWorkflow.DebianMatch | ci/deps/check-deps.py:626 | `--distro-family debian` matches at its start and the group there is `debian` |
| DepsWorkflow.DebianFamilyIntended | ci/deps/check-deps.py:626 | the intended pattern captures `debian` in `--distro-family debian` |
| DepsWorkflow.DebianFamilyMissedAsWritten | ci/deps/check-deps.py:626 | the pattern as written captures no family in `--distro-family debian`, which has no backslash |
| DepsWorkflow.DebianFamilyChecked | ci/deps/check-deps.py:625-632 | with the intended capture, `--distro-family debian` against an `accepts.family` without `debian` fails the workflow |
| DepsWorkflow.UnsupportedFamilyFails | ci/deps/check-deps.py:625-632 | when the script requires `--distro-family` and the workflow names a family outside a non-empty `accepts.family`, the checks come out false |
| DepsCheck.LinuxFamilies | ci/deps/check-deps.py:225-229 | the Linux families are exactly the client build families other than `bsd` |
| DepsCheck.ServerMandatory | ci/deps/check-deps.py:430-434 | a server without the client's family contributes the empty list |
| DepsCheck.PackagerCheck | ci/deps/check-deps.py:427-516 | a Linux packager raises iff a resolved list holds a non-string or one of the eight package-script calls exits non-zero (`bash_list`'s `CalledProcessError`), and otherwise passes iff the client set matches some of the four switch combinations and the server set some; a BSD manager likewise, with four script calls, against the two snmp candidates with the LDAP allowance; any other packager passes with a note; a failing lookup of the lists raises |
| DepsCheck.InstallerPkgmgr | ci/deps/check-deps.py:413-418 | the installer's manager for an OS is the value of the first entry whose name equals it ignoring case, and exists iff such an entry exists |
| DepsCheck.BsdAligned | ci/deps/check-deps.py:412-426 | an OS fails alignment iff the installer names a non-empty manager that its packagers lack |
| DepsCheck.OsCheck | ci/deps/check-deps.py:411-516 | an OS entry passes iff it is aligned with the BSD installer, its `packagers` is a mapping, and every packager passes |
| DepsCheck.FamilyCheck | ci/deps/check-deps.py:410-516 | a family passes iff it is a mapping whose every OS entry passes |
| DepsCheck.BuildCheck | ci/deps/check-deps.py:404-516 | the build section passes iff the client has a mapping `build` and every family in it passes |
| DepsCheck.BuildCheckPassesEachPackager | ci/deps/check-deps.py:410-516 | a clean build section means every single client packager passed its reconciliation |
| DepsCheck.BsdPackagerNames | ci/deps/check-deps.py:644-646 | the walk over one family succeeds iff every OS entry's names can be read, and the names are exactly the packager names of the OS entries the BSD installer knows |
| DepsCheck.OsPackagerNames | ci/deps/check-deps.py:644-646 | an OS the installer does not know contributes nothing; a known one contributes exactly its packager names, and raises iff its `packagers` is not a mapping |
| DepsCheck.BsdPackagerNamesAll | ci/deps/check-deps.py:643-646 | the walk succeeds iff every family entry is a mapping whose OS names can be read, and the names are exactly those of all families |
| DepsCheck.UnknownBsdPackagers | ci/deps/check-deps.py:647 | the unknown names are exactly the collected names outside `pkg`, `pkgin` and `pkg_add`, sorted without duplicates |
| DepsCheck.KeySanity | ci/deps/check-deps.py:639-652 | the key-sanity section passes iff every collected BSD packager name is supported |
| DepsCheck.OsCombos | ci/deps/check-deps.py:129-136 | the triples under one family are exactly its OS names paired with their packager names |
| DepsCheck.FamilyCombos | ci/deps/check-deps.py:126-136 | the triples are exactly the packager paths of the build tree |
| DepsCheck.GatherBuildCombinations | ci/deps/check-deps.py:124-137 | it succeeds iff `build` (default `{}`) is a mapping, and then yields exactly its packager paths |
| DepsCheck.CombosArePackagerPaths | ci/deps/check-deps.py:124-137 | a combination is exactly a packager under an OS mapping under a family mapping; non-mapping entries are skipped |
| DepsCheck.YamlMappingOk | ci/deps/check-deps.py:140-176 | the coverage check passes iff every packager path has the script present and succeeding for it; no paths means success |
| DepsCheck.LoadOptional | ci/deps/check-deps.py:319-341 | an absent map or meta file reads as `{}`; a present one loads like any document |
| DepsCheck.CMakeCheck | ci/deps/check-deps.py:518-570 | the CMake section never clears `ok`; once the Linux families are read it is exactly the section over them |
| DepsCheck.AndThen | ci/deps/check-deps.py:404-662 | `ok` stays true iff it was and the next section passes; an exception in either ends the run |
| DepsCheck.ContentOk | ci/deps/check-deps.py:660-666 | a failed shellcheck always fails the content checks |
| DepsCheck.ContentOkSections | ci/deps/check-deps.py:404-668 | the content checks pass iff build, CMake, runtime, workflows, key sanity, both coverage checks and shellcheck all pass, and raise iff some section raises |
| DepsCheck.CMakeRaisesContent | ci/deps/check-deps.py:518-570 | an exception in the CMake section ends the content checks with an exception |
| Schema.CheckFiles | ci/deps/check-deps.py:376-377 | no exit iff every document loads and passes `check_file`; otherwise the exit status is 2 or 1 (the same loop closes `scripts/ci/check-deps.py`, lines 93-94) |
| DepsCheck.Main | ci/deps/check-deps.py:368-374 | the exit status is 0, 1 or 2; a missing data file gives 2 |
| DepsCheck.MainStages | ci/deps/check-deps.py:368-668 | status 0 means every stage passed: structure, loading, completeness, and the content sections including the CMake and runtime sections, which finished without raising |
| DepsCheck.MainAfterCompleteness | ci/deps/check-deps.py:386-668 | once the documents are loaded, well formed and complete, the status is 0 if the content checks pass and 1 otherwise, an exception included |
| DepsCheck.SingleFamilyIsLinux | ci/deps/check-deps.py:225-229 | a client build whose one family is not `bsd` has that family among the Linux families |
| DepsCheck.UnguardedServerFails | ci/deps/check-deps.py:522-535 | a complete client whose only Linux family, with one OS and one packager, is missing from the server build makes `main` exit with status 1 |
| DepsCheck.ContentOkBuild | ci/deps/check-deps.py:404-668 | a clean content pass includes a clean build section, a CMake and a runtime section that did not raise, clean key sanity and a clean shellcheck |
| DepsCheck.MainSuccess | ci/deps/check-deps.py:368-668 | status 0 certifies the three documents are well formed, every client and server packager lists tools, and the build section held |
| DepsCheck.LoadedDocsWellFormed | ci/deps/check-deps.py:376-402 | documents that passed `check_file` and the completeness pass are well formed, and every client and server packager lists tools |
| DepsCMake.ServerLibs | ci/deps/check-deps.py:528-529 | the server lookup succeeds only when the server build is a mapping naming the family |
| DepsCMake.FirstPackager | ci/deps/check-deps.py:526 | succeeds iff the OS entry and its `packagers` are mappings, giving the first packager, or none for an empty mapping |
| DepsCMake.OsLists | ci/deps/check-deps.py:526-535 | an OS without packagers gives nothing; lists found mean the first packager's client list and the server list at the same path were both read |
| DepsCMake.Search | ci/deps/check-deps.py:522-539 | the loops raise iff some step raises after only steps that let them go on; a non-empty client list is that of a step reached the same way; with no packagers anywhere the lists stay as they were |
| DepsCMake.LinuxSteps | ci/deps/check-deps.py:522-525 | families outside the Linux families contribute no steps |
| DepsCMake.NoLinuxFamilyNoLists | ci/deps/check-deps.py:520-539 | without a Linux family both lists stay empty |
| DepsCMake.UnguardedServerRaises | ci/deps/check-deps.py:528-529 | a client whose one Linux OS has a readable packager, against a server build without that family, makes the search raise |
| DepsCMake.CleanName | ci/deps/check-deps.py:309 | the cleaned name has exactly the letters, digits and underscores of the name and is never longer |
| DepsCMake.CleanNameKeepsClean | ci/deps/check-deps.py:309 | a name of letters, digits and underscores is left as it is |
| DepsCMake.NameStep | ci/deps/check-deps.py:308-309 | a captured group gives its cleaned first word iff it has a word, and `IndexError` otherwise |
| DepsCMake.Collect | ci/deps/check-deps.py:307-311 | the loop succeeds iff every step does; its exception is one some step raised; only non-empty names are added |
| DepsCMake.CollectMembers | ci/deps/check-deps.py:310-311 | the names collected are exactly the non-empty names of the steps |
| DepsCMake.CMakeNames | ci/deps/check-deps.py:300-312 | extraction succeeds iff every captured group has a word, and raises `IndexError` otherwise; no name is empty |
| DepsCMake.CMakeNamesMembers | ci/deps/check-deps.py:300-312 | the dependencies are exactly the non-empty cleaned first words of the captured groups |
| DepsCMake.OsMapped | ci/deps/check-deps.py:558-559 | an OS mapping contributes exactly the items of its lists; a non-mapping is skipped |
| DepsCMake.FamilyMapped | ci/deps/check-deps.py:553-559 | a family mapping contributes exactly the items of its OS entries; a non-mapping is skipped |
| DepsCMake.Mapped | ci/deps/check-deps.py:551-559 | the walk succeeds iff the map entry is a mapping and every list below it converts, and holds exactly their items |
| DepsCMake.NormalizedNames | ci/deps/check-deps.py:560 | the set succeeds iff every package is a string, and is exactly their normal forms |
| DepsCMake.MappedProbe | ci/deps/check-deps.py:560 | one probe raises iff the mapped package or some package is not a string |
| DepsCMake.AnyOf | ci/deps/check-deps.py:560-566 | `any` raises iff an element raises after only false ones, and is true iff an element is true after only ones that did not raise |
| DepsCMake.Probe | ci/deps/check-deps.py:566 | one probe raises iff the package is not a string |
| DepsCMake.AnyContains | ci/deps/check-deps.py:566 | raises iff a non-string package comes before any hit; true iff some string package's normal form contains the token and only strings come before it |
| DepsCMake.AnyMappedFound | ci/deps/check-deps.py:560 | with string packages, true iff some mapped string's normal form is a package's, preceded only by strings; a non-string package list raises |
| DepsCMake.DepFound | ci/deps/check-deps.py:548-567 | an unmapped name that normalises to nothing is skipped, any other is found iff some package contains it; a failing membership test raises |
| DepsCMake.UnmappedFoundByContainment | ci/deps/check-deps.py:563-566 | an unmapped name whose token occurs in a string package preceded only by strings is found |
| DepsCMake.Misses | ci/deps/check-deps.py:546-567 | the loop succeeds iff every dependency's test does, and the misses are exactly the dependencies not found |
| DepsCMake.ReadGroups | ci/deps/check-deps.py:541-542 | reading a CMake file succeeds iff it is readable |
| DepsCMake.CMakeSection | ci/deps/check-deps.py:518-570 | the section never clears `ok`; it goes on only after the lists were found and both files read, and raises when the search raises |
| DepsRuntime.ToolsOf | ci/deps/check-deps.py:574-584 | every entry a successful read yields is hashable |
| DepsRuntime.ToolsOfOk | ci/deps/check-deps.py:574-584 | the read succeeds iff `runtime.tools` is reached through mappings and the chosen list is hashable, and yields that list, or none for a non-list |
| DepsRuntime.ToolToken | ci/deps/check-deps.py:585 | a tool has a token iff it is a string with a word; the token holds only lower-case letters and digits |
| DepsRuntime.TokensOkAppend | ci/deps/check-deps.py:581-585 | every truthy tool of two lists has a token iff every truthy tool of each has one |
| DepsRuntime.RuntimeTokens | ci/deps/check-deps.py:585 | the token set succeeds iff every truthy tool has a token, and is exactly those tokens |
| DepsRuntime.ListUsable | ci/deps/check-deps.py:574-585 | a tool list is usable iff its entries are hashable and every truthy one has a token |
| DepsRuntime.DocumentToolsOk | ci/deps/check-deps.py:581-585 | one document's two tool lists are read and tokenised without raising iff its tools are usable |
| DepsRuntime.RuntimeSection | ci/deps/check-deps.py:572-592 | the runtime section never clears `ok` |
| DepsRuntime.RuntimeSectionOk | ci/deps/check-deps.py:572-592 | given that the installer scan succeeds, the section runs through iff both documents' runtime tools are usable; otherwise it raises and the status is 1 |
| PackagesFromYaml.NormalizeOnOff | ci/deps/packages-from-yaml.py:29-37 | an absent switch takes the default; the result is ON iff the stripped, upper-cased value is an on-word, OFF iff it is an off-word, otherwise that cleaned value |
| PackagesFromYaml.StripEnds | ci/deps/packages-from-yaml.py:32 | a stripped string has no whitespace at either end |
| PackagesFromYaml.UpperIdempotent | ci/deps/packages-from-yaml.py:32 | upper-casing twice is upper-casing once |
| PackagesFromYaml.CleanStable | ci/deps/packages-from-yaml.py:32 | the cleaned-up switch value is stable under cleaning again |
| PackagesFromYaml.NormalizeOnOffIdempotent | ci/deps/packages-from-yaml.py:29-37 | normalising a normalised switch value changes nothing |
| PackagesFromYaml.KeywordStable | ci/deps/packages-from-yaml.py:32-36 | `ON` and `OFF` normalise to themselves, whatever the default |
| PackagesFromYaml.Drop | ci/deps/packages-from-yaml.py:89 | the filter removes every copy of the token and keeps every other item with its multiplicity |
| PackagesFromYaml.DropAppend | ci/deps/packages-from-yaml.py:89 | the filter distributes over concatenation, so the relative order of the rest is kept |
| PackagesFromYaml.DropAbsent | ci/deps/packages-from-yaml.py:89 | a list without the token is left alone |
| PackagesFromYaml.Filtered | ci/deps/packages-from-yaml.py:87-94 | server with LDAP off has no LDAP; server with SNMP off has no NETSNMP; BSD has no LDAP; every other item keeps its multiplicity |
| PackagesFromYaml.ClientIgnoresSwitches | ci/deps/packages-from-yaml.py:87-91 | the client list does not depend on the switches |
| PackagesFromYaml.AllOnKeepsEverything | ci/deps/packages-from-yaml.py:87-94 | outside BSD, with both switches on, nothing is dropped |
| PackagesFromYaml.Main | ci/deps/packages-from-yaml.py:77-83 | exit status 1 iff locating the package list raises |
| PackagesFromYaml.MainPrints | ci/deps/packages-from-yaml.py:85-99 | a successful run prints the resolution of the filtered token list |
| PackagesFromYaml.MainPrintsForStringTokens | ci/deps/packages-from-yaml.py:77-99 | a string token list with a well-shaped map block always prints |
| ScriptsCheckDeps.OsAccepts | scripts/ci/check-deps.py:52-58 | one OS entry passes exactly when it holds `packagers` and those are well formed |
| ScriptsCheckDeps.LinuxAccepts | scripts/ci/check-deps.py:49-58 | the Linux section passes exactly when it holds a well-formed `ubuntu_latest` |
| ScriptsCheckDeps.BsdOsAccepts | scripts/ci/check-deps.py:63-71 | one BSD OS passes exactly when it is present and well formed |
| ScriptsCheckDeps.BsdAccepts | scripts/ci/check-deps.py:61-71 | the BSD section passes exactly when freebsd, netbsd and openbsd are all present and well formed |
| ScriptsCheckDeps.BuildAccepts | scripts/ci/check-deps.py:44-71 | the build section passes exactly when it has well-formed `linux_github` and `bsd` entries |
| ScriptsCheckDeps.RuntimeAccepts | scripts/ci/check-deps.py:74-76 | the runtime section passes exactly when it holds libs and tools |
| ScriptsCheckDeps.NotesAccepts | scripts/ci/check-deps.py:79-82 | absent version notes pass; present ones must hold linux and bsd |
| ScriptsCheckDeps.CheckFileAccepts | scripts/ci/check-deps.py:39-82 | `check_file` accepts exactly the well-formed documents |
| ScriptsCheckDeps.RuntimeReportedAfterBuild | scripts/ci/check-deps.py:74-75 | with a well-formed build, a runtime without libs is reported as the missing `runtime.libs` |
| ScriptsCheckDeps.Main | scripts/ci/check-deps.py:85-97 | the status is 0, 1 or 2; a missing file gives 2; 0 iff both documents load and pass `check_file` |
| ScriptsCheckDeps.MainAcceptsWellFormed | scripts/ci/check-deps.py:85-97 | status 0 iff both documents load and are well formed |
| GeneratePackages.KeyIsJoin | ci/deps/tools/generate-packages.py:30 | the key is the four parts joined with `:` |
| GeneratePackages.KeySplits | ci/deps/tools/generate-packages.py:30 | splitting a key of colon-free parts at `:` gives the four parts back |
| GeneratePackages.KeyInjective | ci/deps/tools/generate-packages.py:30 | distinct colon-free tuples give distinct keys |
| GeneratePackages.Collect | ci/deps/tools/generate-packages.py:23-31 | the nested loop succeeds iff every entry's rows succeed, and collects exactly their rows |
| GeneratePackages.ToMap | ci/deps/tools/generate-packages.py:31 | the keys are exactly the row keys, and a row not overwritten later keeps its value |
| GeneratePackages.ToMapAppend | ci/deps/tools/generate-packages.py:63-65 | filling a dict from two row sequences is updating the first dict with the second |
| GeneratePackages.Mandatory | ci/deps/tools/generate-packages.py:29-31 | a packager that is not a mapping raises `AttributeError`; missing libs or mandatory, or a null list, give `[]`; a list gives its items |
| GeneratePackages.PackagerRowsExact | ci/deps/tools/generate-packages.py:28-31 | the rows of one OS are exactly one per packager, keyed `variant:family:os:pkgmgr` |
| GeneratePackages.OsRowsExact | ci/deps/tools/generate-packages.py:26-31 | the rows of one family are exactly the rows of its OS entries |
| GeneratePackages.PackageRowsExact | ci/deps/tools/generate-packages.py:20-32 | the rows of a document are exactly the rows of its mapping families; other families are skipped |
| GeneratePackages.RowKeyPrefix | ci/deps/tools/generate-packages.py:30 | every row key starts with the variant and a colon |
| GeneratePackages.OsRowPrefix | ci/deps/tools/generate-packages.py:27-30 | every row reached through one family's operating systems starts with the variant and a colon |
| GeneratePackages.FlattenPackages | ci/deps/tools/generate-packages.py:20-32 | the flattening succeeds iff the row walk does; every key starts with `variant:` |
| GeneratePackages.PrefixesApart | ci/deps/tools/generate-packages.py:64-65 | no key starts with both `client:` and `server:` |
| GeneratePackages.VariantsDisjoint | ci/deps/tools/generate-packages.py:63-65 | client and server keys never collide, so the server update keeps every client entry |
| GeneratePackages.PkgmgrRowsExact | ci/deps/tools/generate-packages.py:47-49 | one OS map gives exactly one row per package manager |
| GeneratePackages.MapOsRowsExact | ci/deps/tools/generate-packages.py:44-49 | one family gives exactly the rows of its mapping OS entries |
| GeneratePackages.MapFamilyRowsExact | ci/deps/tools/generate-packages.py:41-49 | one dependency gives exactly the rows of its mapping families |
| GeneratePackages.MapRowsExact | ci/deps/tools/generate-packages.py:35-50 | the map rows are exactly the rows of the mapping dependencies; non-mappings are skipped at every level |
| GeneratePackages.StringPairs | ci/deps/tools/generate-packages.py:55 | the comprehension keeps exactly the pairs whose value is a string |
| GeneratePackages.FlattenAliases | ci/deps/tools/generate-packages.py:53-55 | it succeeds iff the document and its `aliases` (default `{}`) are mappings; the keys are exactly those with string values |
| GeneratePackages.LastWrite | ci/deps/tools/generate-packages.py:31 | every value in the dict was written by some row |
| GeneratePackages.Line | ci/deps/tools/generate-packages.py:58-59 | joining succeeds iff every item is a string; the empty list gives the empty line |
| GeneratePackages.LineSplits | ci/deps/tools/generate-packages.py:58-59 | a non-empty list of space-free names splits back into the same list |
| GeneratePackages.Lines | ci/deps/tools/generate-packages.py:73-74 | one line per key, in key order, each the joined list of that key |
| GeneratePackages.SortedTable | ci/deps/tools/generate-packages.py:73-78 | the table is strictly sorted by key, has exactly the dict's keys, and each value is that key's joined list |
| GeneratePackages.SortedAliases | ci/deps/tools/generate-packages.py:81-82 | the alias table is strictly sorted, has exactly the dict's keys, and maps each to its target |
| GeneratePackages.Generate | ci/deps/tools/generate-packages.py:62-82 | all three written tables are strictly sorted by key; the raw table is the sorted table of the client then the server packager rows, the mapping table the sorted table of `flatten_map()`'s rows, and the aliases table the sorted `flatten_aliases()` pairs |
| GeneratePackages.GenerateRaw | ci/deps/tools/generate-packages.py:63-74 | the raw table's keys are exactly the client and server keys, each with the joined list from its own document |
| GeneratePackages.RawFromRows | ci/deps/tools/generate-packages.py:63-74 | the sorted table of the client rows followed by the server rows holds exactly the keys of both dicts, each line joined from the list its own dict holds |
| Pcre.CopyCount | include/xymon_pcre.h:76-77 | the copy count is twice rc capped at the vector size |
| Pcre.FirstTooLarge | include/xymon_pcre.h:78-82 | the copy stops at the first offset above `INT_MAX`; all offsets before it fit |
| Pcre.Overwrite | include/xymon_pcre.h:83 | the first k slots take the match offsets and the rest of the caller's vector is untouched |
| Pcre.ExecAfterMatch | include/xymon_pcre.h:73-89 | with no copy the vector is untouched and rc passes through, PCRE2's no-match becoming PCRE1's; an offset above `INT_MAX` gives no-match, with every slot before it holding its offset and the slots from it on untouched; otherwise the first 2·rc (capped) slots hold the offsets |
| Pcre.Exec | include/xymon_pcre.h:59-90 | a null pattern, a null subject or a failed match-data allocation gives no-match and leaves the vector alone; otherwise the loop computes what `ExecAfterMatch` states |
| Pcre.CopyOffsets | include/xymon_pcre.h:78-84 | the loop stops early iff one of the first `copycount` offsets exceeds `INT_MAX`; the vector then holds exactly the offsets before that one, and every later slot is unchanged |
| Pcre.FirstTooLargeStops | include/xymon_pcre.h:78-82 | once an offset too large is found, later offsets do not move the stopping point |
| Pcre.ExecCountOverstates | include/xymon_pcre.h:76-89 | a two-group match copied into a two-slot vector returns 2, and copying group 1 then reads beyond the vector |
| Pcre.ExecAfterMatchPcre1 | include/xymon_pcre.h:76-89 | the corrected return value: 0 when the vector was too small, so every group below the count has both offsets copied |
| Pcre.Pcre1CountInBounds | include/xymon_pcre.h:92-101 | with the corrected count, every `pcre_copy_substring` call below it reads only copied slots |
| Pcre.CopySubstring | include/xymon_pcre.h:92-109 | -1 iff a pointer is null, the size or index is out of range, the offsets are reversed or negative, or the substring does not fit with its NUL (buffer untouched); otherwise the length, with the substring, a NUL and the rest of the buffer unchanged |
| Pcre.CString | include/xymon_pcre.h:107 | the C string in a buffer is its prefix up to the first NUL |
| Pcre.CStringOfTerminated | include/xymon_pcre.h:106-107 | a NUL-free text followed by a NUL reads back as that text |
| Pcre.CopyReadsBack | include/xymon_pcre.h:103-108 | after a successful copy, the buffer read as a C string is exactly the substring, and its length is the return value |
| MailAck.SkipSpace | xymond/xymon-mailack.c:96 | the result is a suffix that starts with a non-space, and everything dropped was whitespace |
| MailAck.BodyStep | xymond/xymon-mailack.c:68-88 | a body line never changes the phase, the return path or the sender |
| MailAck.HeaderStep | xymond/xymon-mailack.c:94-105 | a header line never changes the phase, the cause text or the duration |
| MailAck.ScanAppend | xymond/xymon-mailack.c:65-106 | the loop over a list and one more line is the loop followed by one step |
| MailAck.ScanConcat | xymond/xymon-mailack.c:65-106 | the loop over two lists is the loop over the second from where the first ended |
| MailAck.HeaderEnd | xymond/xymon-mailack.c:91 | the headers end at the first empty line: every earlier line is non-empty |
| MailAck.LastHeader | xymond/xymon-mailack.c:94-105 | a header value is present iff some header line has that name |
| MailAck.LastDelay | xymond/xymon-mailack.c:70-72 | the last `delay` line is a delay line of the body, and there is none iff no body line is one |
| MailAck.LastAck | xymond/xymon-mailack.c:74-79 | the last `ack` line is an ack line of the body, and there is none iff no body line is one |
| MailAck.FirstText | xymond/xymon-mailack.c:81-84 | the cause text is the first non-empty body line that is neither delay nor ack |
| MailAck.ScanHeaders | xymond/xymon-mailack.c:94-105 | over the header lines each of Return-Path, From and Subject keeps the value of its last occurrence |
| MailAck.PrefixesExclusive | xymond/xymon-mailack.c:94-105 | no line starts with two of the header names, so the branch order does not matter |
| MailAck.ScanBody | xymond/xymon-mailack.c:68-88 | over the body the last ack line sets the subject, the last delay line the duration, and the first text line the cause; the headers are left alone |
| MailAck.FirstTextAppend | xymond/xymon-mailack.c:81-84 | a text line becomes the cause only while there is none yet |
| MailAck.BodyLinesExclusive | xymond/xymon-mailack.c:70-74 | a delay line is never an ack line |
| MailAck.ScanSplit | xymond/xymon-mailack.c:65-106 | reading the mail is reading the headers, then the body with the header phase over |
| MailAck.ScanMeaning | xymond/xymon-mailack.c:65-106 | the whole loop stated without it: last header values, the ack line overriding the subject, the first text line, the last delay |
| MailAck.Sanitize | xymond/xymon-mailack.c:184-186 | every `<` and `>` becomes a space, every other character stays |
| MailAck.SanitizeIdempotent | xymond/xymon-mailack.c:184-186 | sanitising twice is sanitising once |
| MailAck.AckedBy | xymond/xymon-mailack.c:181-187 | the sender is the From value, else the Return-Path value, sanitised; none iff neither header was seen |
| MailAck.Acknowledge | xymond/xymon-mailack.c:109-204 | no subject gives status 1, a non-matching subject 3, a cookie that is unset or does not fit ten bytes 4; otherwise the message carries the cookie, a non-zero duration (the subject's delay over the body's, 0 becoming 60) and the cause (the subject's msg, else the first text, else `<No cause specified>`) |
| MailAck.Main | xymond/xymon-mailack.c:65-204 | status 1 iff the headers have no Subject and the body no ack line; the message names the From sender, else the Return-Path sender |
| MailAck.RenderReadsBack | xymond/xymon-mailack.c:200-204 | the receiver reads back the command, the cookie and the duration as the first three words, and the sender on a second line exactly when there is one |
| MailAck.FirstLineWords | xymond/xymon-mailack.c:201 | the first line's first three words are `xymondack`, the cookie and the duration |
| Text.SortedSet | ci/deps/check-deps.py:90-91 | `sorted(set(...))`: strictly sorted, with exactly the members of the input |
| Text.TrimLeftSuffix | ci/deps/check-deps.py:308 | what is left after dropping leading whitespace is a suffix of the text |
| Text.FirstWordPlace | ci/deps/check-deps.py:308 | `split()[0]` is a whole word of the text: only whitespace before it, whitespace or the end after it |
| Text.SplitJoin | ci/deps/tools/generate-packages.py:58-59 | joining separator-free items and splitting again gives the items back |
| Text.IndexOfAbsent | ci/deps/tools/generate-packages.py:58-59 | a text without the separator is not split |
| Text.IntStringValue | xymond/xymon-mailack.c:201 | `%d` renders an integer that reads back as the same integer |
| Py.Member | ci/deps/check-deps.py:550 | `key in map_block` is the string-key test for a string key, `TypeError` for an unhashable key, and false for other scalars |
| Py.Concat | ci/deps/check-deps.py:551-559 | `xs += step` over steps succeeds iff every step does and holds exactly their items |

## Left out

- Unicode. Case mapping, whitespace and `str.strip` are ASCII only, while Python's are Unicode.
- `yaml.safe_load` parsing. A document is given already parsed, mapping keys are always strings, and an unparsable file is `Document.Unloadable`.
- Printed messages and their wording. A failed requirement is reported as the missing key path (`SchemaError`), not as the printed text.
- Non-string package tokens. Where the source would join or compare them as text, the model raises `TypeError` (`Py.TokenStrings`, `GeneratePackages.Line`).
- `ci/deps/check-deps.py` subprocesses. `bash_list` and the package-script functions, `packages-from-yaml.sh` and `shellcheck` are parameters (`DepsCheck.Scripts`, `DepsCheck.YamlRunner`, `Repo.shellcheckOk`). A package script that exits non-zero makes `bash_list` raise `CalledProcessError` (`Py.Exc`), so the script functions return a `Result`; what they print is taken as given.
- `parse_bsd_pkgmgrs` and `parse_ldap_pkg_name` read `install-bsd-packages.sh` with an unguarded `read_text()` (lines 233 and 257, called from lines 407 and 409). The model takes their results as parameters, so it assumes the file is readable: a missing file raises `FileNotFoundError` there and the run ends with status 1, which the model does not represent.
- The CMake linkage section (lines 518-570 of `ci/deps/check-deps.py`) only prints notes, but it can raise, and an exception ends the run with status 1. The model keeps what decides raising and leaves out the note text. The three `re.finditer` scans of the CMake files are not interpreted: a file is given as the groups they capture, in the order they are found (`DepsCMake.CMakeFiles`).
- The runtime section (lines 572-592) likewise only prints notes but can raise. `scan_runtime_tools` (lines 113-121) reads the installer scripts, so which tokens are used is not modelled, and neither is an exception from its `rglob` or `read_text`: the model assumes the scan succeeds. Python iterates a set in an unspecified order, so `DepsRuntime.RuntimeTokens` models only whether some tool raises, not which exception comes first.
- `print_diff` only prints and is left out.
- Py.Dict: mapping keys are not required to be unique, and `Py.Lookup` takes the first binding. PyYAML keeps the last value of a repeated key, so documents with repeated keys are not modelled faithfully.
- Py.Value: there is no float. A YAML scalar such as `3.10` or `1e3` loads as a Python `float`, so a document holding one (for example `libs: 1.5`) is outside the model.
- Py.Member: `k in xs` on a list compares values structurally, so Python's `1 == True` (and `0 == False`) is not modelled.
- The workflow regular expressions (lines 605 and 626 of `ci/deps/check-deps.py`) are parameters: `DepsWorkflow.ScriptLocator` for the script path, `Workflow.distroFamily` for the family. So is the check for whether a script file exists. What each pattern can match is stated separately (`DepsWorkflow.AsWrittenScript` and `DepsWorkflow.IntendedScript` for the script path, `DepsWorkflow.FamilyAsWritten` and `DepsWorkflow.IntendedFamily` for the family); see Findings.
- `generate-packages.py`'s file output. The header lines, `json.dumps` quoting and the file handle are left out. The model stops at the three sorted tables of key and value strings. A partially written file after an exception is not modelled.
- `argparse` in `packages-from-yaml.py`. The arguments are given parsed. A missing data file or a non-mapping root (the `ValueError` of `load_yaml`) is left out, because it ends the run with a traceback before any modelled logic.
- The PCRE2 engine itself. `pcre2_match` is a parameter `Match(rc, offsets)`. `pcre_compile`, `pcre_free` and the other wrappers in `include/xymon_pcre.h` are not part of this model.
- Pcre.Exec: `rc * 2` is computed in unbounded integers. C `int` overflow is not possible for realistic group counts and is not modelled.
- An unset capture group below `rc` has PCRE2's offset `PCRE2_UNSET`, which is larger than `INT_MAX`. So in lines 79-81 of `include/xymon_pcre.h` the match then becomes no-match. The model states this through `Pcre.FirstTooLarge`, with the offsets given as numbers.
- In `xymond/xymon-mailack.c`, these are left out:
  - argument parsing (`--debug`, `--env`, `--area`);
  - `loadenv`;
  - `sendmessage`;
  - the debug `printf`;
  - freeing memory.
- Allocation and compilation failures in `xymond/xymon-mailack.c`: `malloc` failure, `pcre2_compile` failure and `pcre2_match_data_create` failure all give status 2. The model assumes they succeed.
- The three mailack regular expressions and `durationvalue` are parameters (`MailAck.Matchers`). The model only states what the filter does with their results.
- `sanitize_input` is not part of this model. Lines are taken as it leaves them.
- `skipwhitespace` is not part of this model. `MailAck.SkipSpace` takes it to skip C `isspace` characters.
- `lib/osdefs.c` and `include/xymon_server.h` are not part of this model.
- Pcre.CopySubstring: requires that the pair it reads lies inside the caller's vector and subject. The C code reads memory unchecked there, which is undefined behaviour outside the arrays.
- MailAck.Render: `sprintf` into a buffer sized from the input is taken not to overflow. The string is built directly.

## Findings

| source | as written | input that shows it | evidently intended | confidence | as-written member | corrected member |
|---|---|---|---|---|---|---|
| include/xymon_pcre.h:76-89 | `pcre_exec` caps the number of copied offsets at `ovecsize` but still returns PCRE2's `rc`, the number of groups that matched | a match with `rc = 2` (offsets 0,4,1,3) into a 2-slot vector returns 2; `pcre_copy_substring(subject, ovector, 2, 1, ...)` then reads `ovector[2]` and `ovector[3]`, beyond the vector | like PCRE1's `pcre_exec`, return 0 when the vector is too small, so that every group below the returned count has both offsets copied | medium, not executed | Pcre.ExecCountOverstates | Pcre.ExecAfterMatchPcre1, Pcre.Pcre1CountInBounds |
| ci/deps/check-deps.py:605 | the raw string `r"(ci/deps/[^\\s]+packages[^\\s]+\\.sh)"` doubles its backslashes: the class `[^\\s]` excludes a backslash and the letter `s` rather than whitespace, and `\\.sh` needs a literal backslash, any character, then `sh` | a step running `ci/deps/install-gh-debian-packages.sh` has no backslash, so no script is found and its required flags and environment are never checked | `ci/deps/\S*packages\S*\.sh`, a whitespace-free path `ci/deps/…packages….sh`. Single backslashes alone are not enough: `ci/deps/[^\s]+packages[^\s]+\.sh` still needs a character between `packages` and `.sh`, so it would also miss `install-gh-debian-packages.sh`; the second `+` must become `*` as well | high on the doubled backslashes, medium on the exact intended pattern; not executed | DepsWorkflow.AsWrittenChecksNothing, DepsWorkflow.InstallerPathMissedAsWritten | DepsWorkflow.IntendedLocates, DepsWorkflow.InstallerPathIntended |
| ci/deps/check-deps.py:626 | the raw string `r"--distro-family\\s+(\\S+)"` doubles its backslashes: it needs a literal backslash followed by `s` after the option, and captures a backslash followed by `S` | a workflow text `--distro-family debian` has no backslash, so no family is captured and the accepted-family and build-tree checks never run | single backslashes: the option, whitespace, then the family word | high, not executed | DepsWorkflow.AsWrittenSkipsFamily, DepsWorkflow.DebianFamilyMissedAsWritten | DepsWorkflow.IntendedFamilyWord, DepsWorkflow.DebianFamilyIntended, DepsWorkflow.DebianFamilyChecked, DepsWorkflow.UnsupportedFamilyFails |
