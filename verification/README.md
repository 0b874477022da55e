# pre-commit-yamale, modelled in Dafny

`pre_commit_hooks/yamale_validate.py` is a pre-commit hook. It takes a list of
YAML files and validates each one against a yamale schema. It returns a
process exit code that can block a commit. This project models the hook's
`main` after argument parsing, as pure functions:

- **Path collection** (`PathCollector`). Every input path is resolved with
  `realpath(path or '.')`. The run stops with code 2 at the first path that
  is not an existing regular file. The surviving paths are then filtered
  through the `--exclude` entries. The filter is a plain string-prefix
  match, computed in two passes: first a list of every path some entry
  prefixes, then the inputs not in that list.
- **Schema location** (`PosixPath`, `ValidationDriver.SchemaPathFor`). An
  absolute `--schema` is used as it is. A relative one is joined onto the
  directory of the file being checked, with POSIX `dirname`/`join`
  semantics. A file that is its own schema path is skipped.
- **Validation driver** (`ValidationDriver`). One iteration loads the data,
  locates and loads the schema, and validates. This is the nested `try` of
  the source. `FileNotFoundError` from `make_schema` skips the file.
  `YamaleError` from `make_schema` or `validate` sets code 1, and the loop
  goes on. Anything else escapes to the outer handler, which sets code 3
  and ends the loop. That includes any error from `make_data`, which sits
  outside the inner handlers.
- **The run** (`Hook.Main`). It chains the three steps above. It returns
  0 when nothing is left to check. A failed `import yamale` gives 3.

The operating system and yamale are passed in as records of functions, so
nothing is assumed about them:

- `FileSystem` gives `realpath`, `exists` and `isfile`.
- `Library<D, S>` gives the outcome of `import yamale`, `make_data`,
  `make_schema` and `validate`. Each outcome either returns a value or
  raises `NotFound`, `Invalid(reports)` or `Other`.

A run returns its exit code and a log of `Event`s. The log records the
console messages and the library calls, in order. Properties such as "no
validation happens before a bad path is reported" or "strict mode is
`not no_strict`" are stated over this log.

`Hook.ExpectedExit` is a reference definition of the exit code. It is
written without the hook's control flow: 2 if any input path is unusable;
else 0 if nothing is left; else 3 if the import fails or any remaining file
meets an unexpected error; else 1 if any file fails validation; else 0.
`Hook.MainExitCode` proves that the run always returns that code.

Files: `config.dfy` (options and exit codes), `posix_path.dfy`,
`path_collector.dfy`, `validation_driver.dfy`, `hook.dfy`.

## Model

| member | source | states |
|---|---|---|
| PosixPath.Dirname | pre_commit_hooks/yamale_validate.py:65 | `os.path.dirname` returns a prefix of the path that is empty exactly when the path has no separator; the last separator run and the base name after it are dropped, trailing separators are stripped unless the head is separators only |
| PosixPath.Join | pre_commit_hooks/yamale_validate.py:65 | `os.path.join(a, b)` returns `b` when `b` is absolute; otherwise it is `a` then `b`, with one separator between them exactly when `a` is non-empty and does not already end in one |
| PosixPath.DirnameOfChild | pre_commit_hooks/yamale_validate.py:65 | the directory of `dir/name` is `dir`, or "/" for a file in the root |
| PosixPath.DirnameOfJoin | pre_commit_hooks/yamale_validate.py:65 | joining a base name onto a directory of the form `dirname` returns and taking `dirname` again gives that directory back |
| PosixPath.DirnameExamples | pre_commit_hooks/yamale_validate.py:65 | `dirname` of `a/b` is `a`, of `a/b/` is `a/b`, of `/a` is `/`, of `a` is empty |
| PathCollector.Collect | pre_commit_hooks/yamale_validate.py:30-37 | collection succeeds exactly when every resolved input is an existing regular file, and then yields the resolved paths in input order; otherwise it names the first unusable resolved path, and every earlier input was usable |
| PathCollector.ApplyExclude | pre_commit_hooks/yamale_validate.py:42-47 | the filtered list is an order-preserving subsequence of the input; a path is in it exactly when it was an input and no exclude entry is a string prefix of it; with no entries the list is unchanged |
| PathCollector.MatchingMembers | pre_commit_hooks/yamale_validate.py:45 | the matches of one exclude entry are exactly the inputs that start with it |
| PathCollector.ExcludedPathsMembers | pre_commit_hooks/yamale_validate.py:43-45 | the `path_to_exclude` list holds exactly the inputs that some exclude entry prefixes |
| PathCollector.ExcludeAsSpecified | pre_commit_hooks/yamale_validate.py:42-47 | the two-pass computation equals the reference filter that drops every path some entry prefixes and keeps the rest in order |
| PathCollector.RetainedIsSubsequence | pre_commit_hooks/yamale_validate.py:47 | the reference filter keeps order (a subsequence) and keeps exactly the non-excluded inputs |
| PathCollector.RetainedWithNoExcludes | pre_commit_hooks/yamale_validate.py:42 | with no exclude entries nothing is removed |
| PathCollector.RetainedCounts | pre_commit_hooks/yamale_validate.py:47 | a kept path keeps all of its occurrences (duplicates included) and an excluded path loses all of them |
| PathCollector.PrefixIsNotSegmentAware | pre_commit_hooks/yamale_validate.py:45 | excluding `/a/b` also removes `/a/bc` but keeps `/a/c` |
| ValidationDriver.SchemaPathFor | pre_commit_hooks/yamale_validate.py:65 | an absolute schema is used unchanged; a relative one is the file's directory, then one separator exactly when that directory is non-empty and does not end in one, then the schema |
| ValidationDriver.SchemaBesideFile | pre_commit_hooks/yamale_validate.py:65 | for `dir/name` and a relative schema, the schema path is `dir/schema` |
| ValidationDriver.SelfSkipByName | pre_commit_hooks/yamale_validate.py:65-67 | with a relative schema, `dir/name` is skipped as its own schema exactly when `name` equals the schema |
| ValidationDriver.ValidateLoaded | pre_commit_hooks/yamale_validate.py:76-89 | `validate` gets strictness `not no_strict`; success is "Okay!"; a `YamaleError` is a failure carrying and printing that exception's reports; any other exception, `FileNotFoundError` included, escapes as that same exception |
| ValidationDriver.CheckLoaded | pre_commit_hooks/yamale_validate.py:65-89 | self-skip exactly when the file is its schema path, with nothing logged; `FileNotFoundError` from `make_schema` gives schema-missing; `YamaleError` from `make_schema` or `validate` gives failure with that exception's reports; any other exception from `make_schema` or `validate` escapes as that same exception; `validate` sees only this file's schema path |
| ValidationDriver.CheckFile | pre_commit_hooks/yamale_validate.py:61-86 | every iteration starts by loading its own file and loads no other; any exception from `make_data` escapes as unexpected; self-skip happens exactly when the data loaded and the file is its own schema path |
| ValidationDriver.CheckFileCrashes | pre_commit_hooks/yamale_validate.py:62-90 | an iteration escapes to the outer handler exactly when `make_data` raises, `make_schema` raises something other than `FileNotFoundError`/`YamaleError`, or `validate` raises something other than `YamaleError` |
| ValidationDriver.CheckFileAttempts | pre_commit_hooks/yamale_validate.py:62 | one iteration loads exactly its own file |
| ValidationDriver.CheckFileValidatesAsConfigured | pre_commit_hooks/yamale_validate.py:65-77 | an iteration's `validate` call uses `not no_strict` and the schema located for its file |
| ValidationDriver.CheckStep | pre_commit_hooks/yamale_validate.py:61-86 | the per-file step loads exactly the file it is given and validates only as configured |
| ValidationDriver.Drive | pre_commit_hooks/yamale_validate.py:56-92 | the loop never lowers the accumulated code and never yields 2 |
| ValidationDriver.DriveCode | pre_commit_hooks/yamale_validate.py:56-92 | the loop gives 3 exactly when some file meets an unexpected error; else 1 exactly when some file fails or 1 was already set; else 0 |
| ValidationDriver.NeutralFileKeepsCode | pre_commit_hooks/yamale_validate.py:66-74 | a file that neither fails nor escapes (skipped as its own schema, missing schema, or valid) leaves the exit code unchanged wherever it stands |
| ValidationDriver.DriveAttemptsAll | pre_commit_hooks/yamale_validate.py:61-86 | without unexpected errors every file is loaded, in order; validation failures do not stop the loop |
| ValidationDriver.DriveStopsAtFirstCrash | pre_commit_hooks/yamale_validate.py:58-90 | the first unexpected error stops the loop: exactly the files up to and including it are loaded |
| ValidationDriver.DriveValidatesAsConfigured | pre_commit_hooks/yamale_validate.py:77 | every `validate` call of the loop uses `not no_strict` and the schema located for its file |
| Hook.Main | pre_commit_hooks/yamale_validate.py:30-92 | the run gives 2 exactly when some resolved input is not an existing regular file, and then it logs only that rejection |
| Hook.CollectedFiles | pre_commit_hooks/yamale_validate.py:30-47 | with every input usable, the loop receives the resolved inputs filtered by the reference exclusion |
| Hook.MainExitCode | pre_commit_hooks/yamale_validate.py:30-92 | the run's exit code is always the one `ExpectedExit` gives (precedence 2, then 0 for nothing to check, then 3, then 1, then 0) |
| Hook.MainRejectsFirstBadPath | pre_commit_hooks/yamale_validate.py:31-35 | the first unusable input ends the run with 2 and a rejection naming its resolved path; nothing else happens, not the filter, the import or any validation |
| Hook.MainNothingToScan | pre_commit_hooks/yamale_validate.py:52-54 | with nothing left after exclusion the run gives 0 and only prints the notice; yamale is never imported or called |
| Hook.MainImportFails | pre_commit_hooks/yamale_validate.py:58-59 | a failed import gives 3 before any file is loaded |
| Hook.MainRunsLoop | pre_commit_hooks/yamale_validate.py:56-61 | after a successful import the run's code and log are the loop's, after the import |
| Hook.MainLoadsAll | pre_commit_hooks/yamale_validate.py:58-86 | without unexpected errors yamale loads every remaining file, in input order |
| Hook.MainStopsAtFirstCrash | pre_commit_hooks/yamale_validate.py:58-90 | the first unexpected error on a remaining file stops the run right after that file |
| Hook.MainValidatesAsConfigured | pre_commit_hooks/yamale_validate.py:76-77 | every `validate` call of a run uses strictness `not no_strict` and the schema located for its file |

## Left out

- Argument parsing (lines 7-25). It is modelled as the immutable `Config` record. `Main` requires at least one path, as `nargs='+'` guarantees. Usage errors are not modelled.
- `os.path.realpath`, `os.path.exists` and `os.path.isfile` are the abstract functions of `FileSystem`. Symlink resolution and path normalisation are not modelled.
- yamale's internals: YAML loading, the choice between the PyYaml and Ruamel backends, and schema semantics. `make_data`, `make_schema` and `validate` are the oracle functions of `Library`. The backend choice is only passed through to them.
- Exception classes are collapsed to three kinds: `FileNotFoundError`, `YamaleError` and everything else. Subclasses and messages other than a `YamaleError`'s reports are not distinguished.
- Debug output (lines 27-28, 39-40, 49-50) is not modelled. The other console output is a log of `Event`s, not text.
- `--no-recursive` (line 20) is parsed but never used by the logic. It is kept as a `Config` field only.
- `os.path.isabs`, `os.path.dirname` and `os.path.join`: `posixpath` belongs to Python's standard library, not to the hook; `PosixPath` follows CPython's `posixpath.isabs`, `dirname` and `join` (so `dirname("a/b/")` is `a/b`), not POSIX `dirname(3)`.
- Hook.Main: its own contract states only the exit-code-2 case. The other exit codes are stated by `Hook.MainExitCode` and the other `Hook` lemmas.
- Running the tool twice on unchanged inputs gives the same result. That holds by construction, since `Main` is a function, so no lemma states it.
