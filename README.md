# A model of cargobomb's core

Cargobomb builds and tests a list of Rust crates with two compiler
toolchains and compares the two outcomes for each crate. This project
models the deterministic core of that tool in Dafny and proves properties
of the model. The core covers:

- the outcome tokens and the result keys;
- the result store on the filesystem;
- the comparison engine that produces the report;
- crate acquisition: download cache, tarball unpacking and the batch rule;
- the git depth ladder;
- the command-line helpers;
- the line-file helpers;
- the registry index reader;
- the Cargo.toml sanitiser.

The modules follow the source files:

| module | source | form |
|---|---|---|
| `Common` | error kinds, `chain_err`, `join`/`split`/`replace` | datatypes, functions |
| `Ex` | the experiment identities the core uses | datatypes |
| `Results` | `src/results.rs` | functions and lemmas |
| `Files` | `src/file.rs`, and the `std::fs` calls the core makes | tree functions, plus a `FileSystem` class whose methods update the tree in place |
| `Model` | `src/model.rs` (`FsStore`) | a class with path functions and methods over a `FileSystem` |
| `Report` | `src/report/mod.rs` | functions and lemmas |
| `Run` | `src/run.rs` | functions and methods; `unmerge` is a loop |
| `Git` | `src/git.rs` | methods with loops over oracle outcomes |
| `Crates` | `src/crates.rs` | methods with loops, specified by tree functions |
| `Registry` | `src/registry.rs` | loop methods specified by folds |
| `TomlFrobber` | `src/toml_frobber.rs` | nested loops on a map value |

The filesystem is a map from paths to nodes. A path is a sequence of
components. Apart from tar entry paths, which may hold `..`
(`Crates.Resolve`), each component is taken to be a plain name: non-empty,
without `/`, and not `.` or `..`. A node is `Dir` or `File(contents)`. The contents are text
or a JSON document. A well-formed tree has every ancestor of a present
path present as a directory, and every `FileSystem` method keeps that
invariant. Frames are stated with `UnchangedOutside(t0, t1, d)`: every path
that is neither an ancestor of `d` nor inside `d` is the same in both
trees.

Code the model cannot see becomes a parameter or oracle:

- `gh_url_to_org_and_name` is a function parameter of type `UrlParser`;
- a toolchain is its rustup name;
- a spawned process is described by how it ends (`Run.Outcome`);
- a download is its decoded result (`Crates.Download`);
- each git command is its result, plus the tree it leaves behind;
- the producer of `record_test_results` is its log and its result;
- the directory walk of the index is a sequence of entries;
- the TOML parser and printer are function parameters.

The Rust code panics in three places. Each panic becomes a precondition:

- an unparsable repository URL in `crate_to_dir` becomes `Resolvable`;
- a toolchain count other than two in `generate_report` becomes `|toolchains| == 2`;
- empty arguments in `make_cmdstr` become `|args| > 0`.

A batch of crate downloads fails when `successes < list.len() / 2`
(src/crates.rs:57). The division is integer division, so with three
crates a single success is enough. The model keeps that comparison
(`Crates.Enough`, `Crates.EnoughIff`).

## Model

| member | source | states |
|---|---|---|
| Results.ToString | src/results.rs:55-62 | every result prints as a non-empty token |
| Results.FromStr | src/results.rs:42-53 | parsing succeeds exactly on the three tokens, and the parsed result prints back to the input; any other string fails with `bogus test result: <s>` |
| Results.ParsePrinted | src/results.rs:45-62 | parsing the printed token of each result gives that result back |
| Results.PrintInjective | src/results.rs:56-62 | different results print to different tokens |
| Results.CrateToDir | src/results.rs:9-21 | a crate directory starts with `reg/` for a registry crate and `gh/` for a repository; `Results.CrateDirJoined` ties it to `Results.CrateDirComponents` |
| Results.CrateDirComponents | src/results.rs:9-21 | a crate directory has two components, the first `reg` for a registry crate and `gh` for a repository |
| Results.CrateDirJoined | src/results.rs:9-21 | the components joined by `/` are exactly the string `crate_to_dir` formats |
| Results.ResultPathFragment | src/results.rs:25-28 | the fragment is the toolchain's rustup name, a `/`, then exactly the crate directory |
| Results.FragmentComponents | src/results.rs:25-28 | defined as three components: the toolchain's rustup name, then the crate directory's two components (`reg` or `gh` first) |
| Results.FragmentJoined | src/results.rs:25-28 | the key's components joined by `/` are exactly the path fragment |
| Results.FragmentLayout | src/results.rs:9-28 | a registry crate keys to `<tc>/reg/<name>-<version>` and a repository to `<tc>/gh/<org>.<name>.<sha>` |
| Results.RegistryAndRepoDirsDiffer | src/results.rs:14-18 | a registry crate and a repository crate never share a directory |
| Common.ChainErr | src/model.rs:161-163 | a context message wraps an error and leaves a success alone |
| Files.CreateDirAllIn | src/model.rs:117 | `create_dir_all` fails exactly when a file stands on the path; otherwise the path and all its ancestors are directories afterwards, and nothing else changes |
| Files.RemoveTree | src/model.rs:129 | removing a directory removes exactly it and its descendants |
| Files.WriteFile | src/file.rs:8-12 | a write succeeds exactly when the parent is a directory and the target is not, and it replaces the previous contents |
| Files.ReadFile | src/file.rs:14-19 | a read succeeds exactly on a file and returns its contents |
| Files.ReadString | src/file.rs:14-19 | `read_string` succeeds exactly on a text file and returns its text |
| Files.ReadDoc | src/file.rs:50-56 | `read_json` succeeds exactly on a file holding a document and returns the document |
| Files.AppendLineIn | src/file.rs:34-41 | `append_line` leaves the previous text followed by `s` and a newline, or creates the file holding `s` and a newline when it is absent; no other path changes |
| Files.Lines | src/file.rs:27-28 | `str::lines` gives at most as many lines as there are newline-separated pieces |
| Files.NonBlank | src/file.rs:30 | the kept lines are exactly the non-blank input lines: each kept line is non-blank and comes from the input, and every non-blank input line is kept |
| Files.NonBlankConcat | src/file.rs:30 | filtering distributes over concatenation, so the kept lines stay in input order |
| Files.NonBlankKeepsAll | src/file.rs:30 | a list without blank lines is kept whole |
| Files.ReadLines | src/file.rs:25-32 | `read_lines` succeeds exactly when the file reads, and returns no blank line |
| Files.LinesOfLinesText | src/file.rs:21-28 | splitting the text `write_lines` writes gives the lines back, for lines without a newline or a final carriage return |
| Files.EmptyLineFile | src/file.rs:21-28 | writing no lines gives a file that splits into one empty line |
| Files.ReadWrittenLines | src/file.rs:21-32 | `read_lines` after `write_lines(ls)` returns the non-blank lines of `ls` |
| Files.CreateDirAllWellFormed | src/model.rs:117 | creating a directory with its ancestors keeps every ancestor of a present path a directory |
| Files.RemoveTreeWellFormed | src/model.rs:129 | removing a directory with its descendants keeps the tree well formed |
| Files.WriteFileWellFormed | src/file.rs:8-12 | writing a file keeps the tree well formed |
| Files.AppendLineWellFormed | src/file.rs:34-41 | appending a line keeps the tree well formed |
| Files.AbsentHasNoDescendants | src/model.rs:126-133 | in a well-formed tree, removing an absent directory changes nothing, so skipping the removal when the directory does not exist is the same as doing it |
| Files.CreateDirAllFrame | src/model.rs:117 | creating a directory changes nothing outside its line of ancestors and its subtree |
| Files.RemoveTreeFrame | src/model.rs:129 | removing a directory changes nothing outside it |
| Files.WriteFileFrame | src/file.rs:8-12 | writing a file changes nothing but that file |
| Files.RemoveTreeIdempotent | src/model.rs:126-133 | removing a directory twice is the same as removing it once |
| Files.FileSystem.CreateDirAll | src/model.rs:117 | the in-place `create_dir_all` commits the tree `CreateDirAllIn` gives, or leaves the tree when it fails |
| Files.FileSystem.RemoveDirAll | src/model.rs:129 | the in-place removal of a directory and everything below it |
| Files.FileSystem.Write | src/file.rs:8-12 | the in-place write commits `WriteFile`'s tree, or leaves the tree when it fails |
| Files.FileSystem.WriteString | src/file.rs:8-19 | after a successful `write_string`, `read_string` returns exactly the text written |
| Files.FileSystem.WriteDoc | src/file.rs:43-56 | after a successful `write_json`, `read_json` returns exactly the document written |
| Files.FileSystem.WriteLines | src/file.rs:21-32 | after a successful `write_lines`, `read_lines` returns the non-blank lines written |
| Files.FileSystem.AppendLine | src/file.rs:34-41 | after `append_line`, the file reads as the old text plus `s` and a newline, or as `s` and a newline when it was absent |
| Model.FsStore.Open | src/model.rs:63-65 | the store is rooted where it was opened |
| Model.FsStore.ExDir | src/model.rs:73-75 | an experiment's directory is the one component below the store root named after the experiment; this is `root.join(ex_name)` only for a plain name (see Left out) |
| Model.FsStore.ConfigFile | src/model.rs:67-69 | `config.json` directly inside the experiment directory |
| Model.FsStore.ShaFile | src/model.rs:70-72 | `shas.json` directly inside the experiment directory, a different file from `config.json` |
| Model.FsStore.ResDir | src/model.rs:85 | `res` directly inside the experiment directory, distinct from both record files |
| Model.FsStore.ResultDir | src/model.rs:83-91 | defined as the experiment's `res` directory followed by the key's three fragment components; it lies inside the experiment directory |
| Model.FsStore.ResultFile | src/model.rs:76-79 | defined as the file `results.txt` directly inside the key's result directory |
| Model.FsStore.ResultLog | src/model.rs:80-82 | defined as the file `log.txt` directly inside the key's result directory, a different file from the result token |
| Model.FsStore.LoadExperiment | src/model.rs:95-98 | loading succeeds exactly when `config.json` holds an experiment, and returns it |
| Model.FsStore.ReadShas | src/model.rs:146-150 | reading succeeds exactly when `shas.json` holds a sha map, and returns it |
| Model.FsStore.LoadTestResult | src/model.rs:152-168 | None exactly when the result file is absent; a file holding a valid token loads as Ok(Some) of that token's result; a result read back is the one whose token the file holds; a read error is passed through; a text that is not a token gives the chained `invalid test result value` error |
| Model.FsStore.ReadTestLog | src/model.rs:182-190 | the log reads exactly when the key's `log.txt` is a text file, and gives its text |
| Model.FsStore.CreateExperiment | src/model.rs:99-125 | succeeds exactly when the directory can be made and `config.json` is not a directory; loading afterwards returns the same name, crates, toolchains and mode; nothing outside the experiment directory changes |
| Model.FsStore.DeleteExperiment | src/model.rs:126-133 | always succeeds and removes the experiment directory; an absent experiment leaves the tree unchanged |
| Model.FsStore.WriteShas | src/model.rs:135-144 | a missing experiment gives `ExperimentMissing` and no change; otherwise `read_shas` afterwards returns the same map |
| Model.FsStore.DeleteTestResult | src/model.rs:170-181 | always succeeds and removes exactly the key's result directory |
| Model.FsStore.DeleteAllTestResults | src/model.rs:191-199 | removes exactly `<ex>/res`; the experiment's configuration and shas read as before |
| Model.FsStore.RecordTestResults | src/model.rs:201-220 | with a successful producer, the call returns its result, `load_test_result` then gives that result and the log holds the producer's log; a failing producer gives an error and leaves no `results.txt`, even if there was one before; nothing outside the key's result directory changes |
| Model.OtherKeysUnaffected | src/model.rs:170-181 | a change confined to one key's result directory leaves every other key's result as it was |
| Report.Compare | src/report/mod.rs:152-171 | Unknown exactly when a side is missing; Same* exactly when both sides are present and equal; Fixed exactly when the first is lower in BuildFail < TestFail < TestPass; Regressed exactly when it is higher |
| Report.CompareSwap | src/report/mod.rs:152-171 | swapping the two sides exchanges Fixed and Regressed and keeps every other classification |
| Report.CompareIgnoresLogs | src/report/mod.rs:154-156 | the classification depends on the results only, not on the log paths |
| Report.RegressionScenario | src/report/mod.rs:157-169 | pass then build failure is Regressed; build failure then pass is Fixed; two test failures are SameTestFail; a missing side is Unknown |
| Report.CrateToName | src/report/mod.rs:139-150 | the name fails exactly when the repository URL does not parse |
| Report.NameIsDirWithoutKind | src/report/mod.rs:139-150 | a crate's report name is its crate directory without the `reg/` or `gh/` prefix |
| Report.EntryName | src/report/mod.rs:76 | an entry is named `<unknown>` when its name cannot be computed, and by its report name otherwise |
| Report.LoadRun | src/report/mod.rs:57-70 | a run is present exactly when loading gives a result; its log is the key's path fragment |
| Report.GenerateReport | src/report/mod.rs:49-84 | one entry per crate, in crate order; the first run comes from the first toolchain and the second from the second; each entry is classified by `compare` of its runs; a failure listing the crates is returned as it is |
| Report.Entry | src/report/mod.rs:54-77 | the per-crate entry carries the crate's report name, the first toolchain's run then the second's, and is Unknown exactly when one of the runs is missing |
| Run.MakeCmdstr | src/run.rs:78-81 | the command line starts with the name and a space, and is the name and the arguments joined by single spaces |
| Run.CmdstrWords | src/run.rs:78-81 | splitting the command line at spaces gives back the name and the arguments, when none of them contains a space |
| Run.CmdstrExample | src/run.rs:78-81 | `git` with `clone --depth 1 u` prints as `git clone --depth 1 u` |
| Run.Unmerge | src/run.rs:192-209 | the two vectors are the stdout and the stderr lines of the merged stream |
| Run.UnmergeConcat | src/run.rs:198-208 | splitting a concatenated stream gives the concatenated sides, so order is kept on each side |
| Run.UnmergeOne | src/run.rs:199-206 | a First item goes to the left side only, a Second to the right side only, and a Both item to both |
| Run.AllFirst | src/run.rs:199-206 | a stream of stdout lines only has an empty right side and a left side of the same length |
| Run.LogCommand | src/run.rs:100-190 | output is produced exactly when the process exits; if capturing, it is the split of the merged stream, and otherwise both vectors are empty; an expired heartbeat gives the 120-second timeout and an expired whole-run timer the 1200-second one |
| Run.RunFull | src/run.rs:28-49 | Ok exactly when the command exits successfully; an unsuccessful exit gives ``command `<cmdstr>` failed``; timeouts and spawn errors pass through |
| Run.Failed | src/run.rs:47 | the failed-command error is a message of the form ``command `<name> …` failed`` |
| Run.RunCapture | src/run.rs:51-76 | on success, the captured stdout and stderr lines; errors as for `run_full` |
| Git.FrobUrl | src/git.rs:84-88 | a URL that starts with `https://` comes out starting with `git://` |
| Git.FrobUrlKeepsOthers | src/git.rs:84-88 | a URL without `https://` is left unchanged |
| Git.FrobUrlHttps | src/git.rs:84-88 | `https://<rest>` becomes `git://<rest>` |
| Git.ShowNat | src/git.rs:54 | a depth prints as a non-empty string of decimal digits with no leading zero |
| Git.ShowNatValue | src/git.rs:54 | the printed digits denote the depth itself, as `depth.to_string()` does |
| Git.ShowNatInjective | src/git.rs:54 | different depths print differently |
| Git.CloneArgs | src/git.rs:51-66 | every clone command is a `clone` that names the URL given and clones into the target directory |
| Git.LadderArgs | src/git.rs:38-66 | the first clone is at depth 1, the fourth at depth 1000, and the last clone is a full one |
| Git.ShallowFetchSha | src/git.rs:34-74 | a commit already present means no clone at all. Otherwise the depths are tried in the order 1, 10, 100, 1000, then full, and the search stops at the first clone that fails or finds the commit. Every earlier clone succeeded without finding it. A failed clone aborts with `unable to clone <url>`. A commit missing even after the full clone gives `commit <sha> does not exist in <url>`. Every command uses the rewritten URL |
| Git.ShallowCloneOrPull | src/git.rs:8-29 | an absent directory is cloned at depth 1, and a present one is pulled; a failed clone leaves no directory; errors carry `unable to clone` or `unable to pull` with the rewritten URL; nothing outside the directory changes |
| Git.ResetToSha | src/git.rs:76-82 | the command is `reset --hard <sha>`; a failure is chained with the directory and the sha |
| Crates.RegistryUrl | src/crates.rs:85 | the archive URL is the crates root, the crate's name, then the file `<name>-<vers>.crate` |
| Crates.CrateDir | src/crates.rs:64-74 | fails exactly when the repository URL does not parse; otherwise the crates directory followed by the same two components the result store uses |
| Crates.CrateDirMatchesResults | src/crates.rs:64-74 | below the crates directory, the unpack directory prints as `/` followed by `crate_to_dir` |
| Crates.StripFirst | src/crates.rs:116-118 | an entry path loses exactly its first component |
| Crates.Target | src/crates.rs:116-119 | the joined path starts with the crate directory and continues with the entry path minus its first component; `..` components are kept, as `Path::join` keeps them |
| Crates.ResolvePlain | src/crates.rs:119-123 | a path without `..` resolves to itself |
| Crates.TargetResolvesInside | src/crates.rs:116-123 | an entry path without `..`, below a crate directory without `..`, resolves to a path inside the crate directory |
| Crates.TargetResolvesToItself | src/crates.rs:119-123 | without `..`, the joined path and its parent resolve to themselves |
| Crates.UnpackEntryAsWritten | src/crates.rs:110-123 | one step as written: a broken entry fails and changes nothing; a file entry that succeeds is stored where its joined path resolves, a directory entry makes that resolved path a directory |
| Crates.AsWrittenEscapes | src/crates.rs:116-123 | as written, the entry `pkg/../x` unpacked into `/c` succeeds and writes the file `/x`, outside the crate directory |
| Crates.AsWrittenAgreesWithoutParentRefs | src/crates.rs:107-127 | on entries without `..`, the step as written and the corrected step give the same tree and result |
| Crates.FirstComponentDropped | src/crates.rs:116-119 | two entries that differ only in their first component unpack identically |
| Crates.UnpackFileLands | src/crates.rs:107-127 | a file entry `top/rest` lands at `<dir>/rest`, and all its ancestors become directories, when no file is in the way |
| Crates.UnpackExample | src/crates.rs:107-127 | `pkg-1.0/src/lib.rs` lands at `<dir>/src/lib.rs` and creates `<dir>/src` |
| Crates.UnpackEntry | src/crates.rs:110-123 | the corrected step: a broken entry fails and changes nothing; an entry holding `..` is skipped; otherwise a file entry that succeeds is stored at its joined path and a directory entry makes it a directory |
| Crates.UnpackPlain | src/crates.rs:119-123 | an entry unpacked at its joined path: on success a file lands there with its contents, or a directory is there |
| Crates.UnpackAll | src/crates.rs:107-127 | a tarball with a broken entry anywhere fails |
| Crates.UnpackErrSticks | src/crates.rs:109-124 | after the first failing entry, later entries change nothing |
| Crates.UnpackEntryFrame | src/crates.rs:119-123 | unpacking one entry, with an entry holding `..` skipped, changes nothing outside the crate directory |
| Crates.UnpackAllFrame | src/crates.rs:107-127 | unpacking a whole tarball, with entries holding `..` skipped, changes nothing outside the crate directory |
| Crates.UnpackEntryIn | src/crates.rs:110-123 | one in-place step skips an entry holding `..`; otherwise it creates the parent directory and then unpacks the entry, leaving the tree and result of the corrected step |
| Crates.UnpackWithoutFirstDir | src/crates.rs:107-127 | the in-place loop leaves the tree and the result of unpacking the entries in order, stopping at the first failure |
| Crates.FetchInto | src/crates.rs:86-97 | the corrected fetch succeeds exactly when the directory is created, the gzip header decodes and every entry unpacks; on success the tree is the unpacked one |
| Crates.FetchIntoAsWritten | src/crates.rs:86-97 | the fetch as written returns the same result as the corrected one, and differs from it in nothing when the gzip header decodes |
| Crates.AsWrittenCachesBadDownload | src/crates.rs:88-90 | as written, a download whose gzip header does not decode fails but leaves the crate directory in place |
| Crates.AsWrittenBadDownloadExample | src/crates.rs:88-90 | an instance: a corrupt download into `/c` fails and leaves `/c` behind |
| Crates.FetchIntoFrame | src/crates.rs:86-97 | a fetch touches nothing outside the crate directory, and a failed fetch leaves no crate directory behind |
| Crates.DlRegistry | src/crates.rs:76-98 | an existing directory is a cache hit: Ok, no download and no change. A failed download gives `unable to download <url>` and creates nothing. A failed unpack leaves no directory. Nothing outside the crate directory changes |
| Crates.EnoughIff | src/crates.rs:57-59 | the batch rule `successes >= len / 2` holds exactly when twice the successes, plus one for an odd count, reach the count |
| Crates.EnoughExamples | src/crates.rs:57-59 | of ten crates, five successes pass and four fail; of nine, four pass; a single failing crate passes |
| Crates.Prepare | src/crates.rs:29-62 | every crate is tried, whatever earlier ones did; each failure carries `unable to download` and the crate; the batch fails exactly when the number of successes is below half the count, in integer division |
| Registry.DepsConcat | src/registry.rs:83-92 | dependencies keep their order |
| Registry.DepsKept | src/registry.rs:83-92 | a dependency is kept exactly when both `name` and `req` are strings |
| Registry.CrateOfVersions | src/registry.rs:77-100 | a file reads exactly when every line parses; its versions are those of the lines that have both `name` and `vers`, in line order |
| Registry.CrateOfFirstError | src/registry.rs:78-79 | the first line that cannot be read or parsed decides the error |
| Registry.CrateOfName | src/registry.rs:74-99 | the crate name is the name on the last contributing line, or empty when no line contributes |
| Registry.CrateOf | src/registry.rs:70-106 | the independent fold over the lines that `Registry.ReadCrate` is proved to compute, through `CrateFile`, for a file that opens; a successful read has at most one version per line |
| Registry.ReadCrate | src/registry.rs:70-106 | the nested loops compute the fold over the lines, and a file that cannot be opened gives its error |
| Registry.SelectedPaths | src/registry.rs:43-62 | no selected path is hidden or named `config.json` |
| Registry.RegistryOfSelected | src/registry.rs:51-67 | a successful read gives one crate per selected index file, in walk order, each the contents of its file |
| Registry.WalkErrorFails | src/registry.rs:56 | any walk error fails the whole read |
| Registry.RegistryErrSticks | src/registry.rs:56-64 | once the read has failed, later walk items change nothing: the first error is the result |
| Registry.RegistryOf | src/registry.rs:40-68 | the independent fold over the walk that `Registry.ReadRegistry` is proved equal to; a successful read has at most one crate per walk item |
| Registry.ReadRegistry | src/registry.rs:40-68 | the loop computes the read over the walk: it skips hidden entries, non-files and `config.json`, and stops at the first error |
| TomlFrobber.StripDep | src/toml_frobber.rs:29-40 | a table dependency loses exactly its `path` key and keeps every other key; other values are unchanged |
| TomlFrobber.Frobbed | src/toml_frobber.rs:20-51 | the independent definition of the rewritten manifest that `TomlFrobber.FrobTable` is proved to return: exactly the keys of the input other than `workspace` |
| TomlFrobber.NoPathLeft | src/toml_frobber.rs:23-51 | afterwards no dependency of the three sections has a `path` key, and there is no `workspace` |
| TomlFrobber.FrobbedKeeps | src/toml_frobber.rs:23-51 | only `workspace` disappears; other top-level keys are unchanged; each dependency of the three sections is stripped; a section that is not a table is unchanged |
| TomlFrobber.ChangesIffDiffers | src/toml_frobber.rs:20-51 | the manifest needs rewriting exactly when the rewrite changes it |
| TomlFrobber.StripDeps | src/toml_frobber.rs:29-41 | the in-place loop over one section strips every dependency, and reports a change exactly when some dependency had a `path` |
| TomlFrobber.FrobTable | src/toml_frobber.rs:20-51 | the loops produce the stripped manifest, and the flag is set exactly when a `path` or the `workspace` was removed |
| TomlFrobber.FrobToml | src/toml_frobber.rs:12-61 | a missing Cargo.toml gives `no cargo.toml?` and an unparsable one gives `unable to parse Cargo.toml at <dir>`, both with no write; a manifest that does not need it is not written; otherwise the printed stripped manifest is written to `out` |

## Left out

- Process spawning in `log_command_` is not modelled: the tokio reactor, the timer wheel, the merged async streams, `setsid`, the process-group kill and the Windows branch. A process is described by how it ends, including which timer fires.
- The working directory and environment that `run_full`/`run_capture` hand to the process, and the `run`/`cd_run` wrappers, which only discard the result value.
- `log::redirect` is not modelled: the producer's log is written to `log.txt` whole, before the result is written.
- `util::try_hard` is not modelled: the retried clone at each depth is one oracle result.
- `util::remove_dir_all` never fails in the model, in the delete operations or in the cleanups.
- Network downloads, gzip and tar decoding: a download is its decoded result. Tar entries other than files and directories (links, devices) are not modelled.
- `dl_repo`: only its result is modelled. Copying the mirror into the crate directory is not.
- The 100 ms pause between repository crates and `util::report_error` (logging).
- JSON and TOML text: a JSON file holds its document value, and the TOML parser and printer are parameters. So `Files.ReadString` and `Files.AppendLineIn` fail on a file that holds a document, where the Rust `read_string` and `append_line` would read or extend its text; no other contract depends on that case.
- The experiment record keeps its crates as the converted `ExCrate` list. `create_experiment` stores the `lists::Crate` values it is given (src/model.rs:103, 113), and `ex::ex_crates_and_dirs` converts them. That conversion is not modelled: `Report.GenerateReport` takes its result as a parameter.
- `read_test_log` opens the log file; the model returns the file's text.
- `write_logs`, `gen`, `write_html_files`, `ReportWriter`/`FileWriter` and the S3 writer: rendering and output.
- `find_registry_crates`/`update_registry`, the HTTP server, the database schema and the error-chain macro.
- Crates.Prepare: uses `Crates.DlRegistry`, so it has the corrected order of both Findings rows. A registry crate's outcome is stated only by its error context. What each download does is stated by `Crates.DlRegistry`, and the tree after the batch is not stated.
- Git.ShallowFetchSha: the clones' effect on the checkout is folded into the `found` oracle. The oracle does not see that each clone after the first targets the directory the previous clone filled; git refuses to clone into a non-empty directory, so in the Rust code the second clone most likely fails. That is not modelled.
- Git.ShallowCloneOrPull: what git leaves behind is an oracle tree, required to stay inside the target directory. The `fs::remove_dir_all` after a failed clone (src/git.rs:19-21) never fails in the model; in the Rust code its error would replace the clone error.
- Crates.DlRegistry: uses the corrected order of both Findings rows (`Crates.FetchInto`, `Crates.UnpackEntry`). The order as written is `Crates.FetchIntoAsWritten` and `Crates.UnpackEntryAsWritten`.
- Crates.UnpackWithoutFirstDir: skips entries holding `..`, like the corrected `Crates.UnpackEntry`; as written they are unpacked where they resolve (`Crates.AsWrittenEscapes`).
- Model.FsStore.ExDir: experiment names and toolchain names (`Results.FragmentComponents`) are each taken to be one plain path component: non-empty, without `/`, not `.` or `..`, and not absolute. `Path::join` (src/model.rs:73-75, src/results.rs:27) treats other names differently: `""` gives the store root itself, so `delete_experiment("")` would remove every experiment; `a/b` nests inside `a`; `..` climbs to the root's parent. The frame claims of `Model.FsStore.CreateExperiment`, `DeleteExperiment`, `DeleteTestResult`, `RecordTestResults` and `Model.OtherKeysUnaffected` hold only for plain names.
- Entry paths are sequences of components as `Path::components` yields them; `.` components, empty components and absolute entry paths are not modelled.
- Report.LoadRun and Report.GenerateReport read results through `Model.FsStore.LoadTestResult`. The report module's `FileDB` (src/report/mod.rs:50, 58-62) is not part of this model and is taken to use the same layout.
- Files.Lines: its own contract only bounds the length; what it computes is stated by `Files.LinesOfLinesText` and `Files.ReadWrittenLines`.
- Files.ReadWrittenLines: requires lines without a final carriage return, because `str::lines` strips one.
- Registry.ReadRegistry: the walk order is the oracle's; the walker's own sorting is not modelled.

## Findings

| source | as written | input that shows it | evidently intended | confidence | as-written member | corrected member |
|---|---|---|---|---|---|---|
| src/crates.rs:88-90 | `dl_registry` creates the crate directory, then returns through `GzDecoder::new(&*bin)?` before the cleanup that removes the directory after a failed unpack | a download whose gzip header does not decode, for a crate whose directory does not exist yet | every failure after the directory is created removes it, so the next `prepare` downloads the crate again instead of taking the empty directory as cached | not executed; medium | Crates.AsWrittenCachesBadDownload | Crates.FetchIntoFrame |
| src/crates.rs:116-123 | the entry path minus its first component is joined to the crate directory with `Path::join`, which keeps `..`, and `entry.unpack` writes where the joined path resolves | a tarball entry `pkg/../x` unpacked into `/c` | every entry stays inside the crate directory, as `tar::Entry::unpack_in` ensures by skipping entries that hold `..` | not executed; medium | Crates.AsWrittenEscapes | Crates.UnpackEntryFrame |

The rest of the model uses the corrected steps (`Crates.FetchInto` and
`Crates.UnpackEntry`, used by `Crates.DlRegistry`).
`Crates.FetchIntoAsWritten` and `Crates.UnpackEntryAsWritten` keep the
steps as written. `Crates.AsWrittenAgreesWithoutParentRefs` shows that the
two unpack steps differ only on entries that hold `..`.
