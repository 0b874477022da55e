/** The hook's `main` after argument parsing: collect the paths, apply the
    exclusions, and drive yamale over what is left. */
module Hook {
  import opened HookConfig
  import opened PathCollector
  import opened ValidationDriver

  /** The whole run. `fs` answers the filesystem questions and `lib` stands
      for yamale. Argument parsing (`nargs='+'`) guarantees at least one path. */
  function Main<D, S>(cfg: Config, fs: FileSystem, lib: Library<D, S>): (r: Run)
    requires |cfg.paths| > 0
    ensures r.code == BadInputPath <==>
      exists i :: 0 <= i < |cfg.paths| && !Usable(fs, Resolve(fs, cfg.paths[i]))
    ensures r.code == BadInputPath ==> |r.log| == 1 && r.log[0].PathRejected?
  {
    match Collect(fs, cfg.paths)
    case Rejected(p) => Run(BadInputPath, [PathRejected(p)])
    case Collected(resolved) =>
      var files := ApplyExclude(resolved, cfg.exclude);
      if files == [] then Run(Success, [NothingToScan])
      else
        match lib.imported
        case Threw(e) => Run(UnexpectedError, [ImportLibrary, Unexpected(e)])
        case Returned(_) =>
          var d := Drive(CheckStep(lib, cfg), files, Success);
          Run(d.code, [ImportLibrary] + d.log)
  }

  /** The resolved input paths, in order. */
  function ResolvedPaths(fs: FileSystem, paths: seq<string>): (rs: seq<string>)
    ensures |rs| == |paths|
    ensures forall i :: 0 <= i < |paths| ==> rs[i] == Resolve(fs, paths[i])
  {
    seq(|paths|, i requires 0 <= i < |paths| => Resolve(fs, paths[i]))
  }

  /** The files left to validate when every input path is usable. */
  function ToValidate(cfg: Config, fs: FileSystem): seq<string> {
    Retained(ResolvedPaths(fs, cfg.paths), cfg.exclude)
  }

  /** The exit code the hook promises, stated without its control flow:
      2 for a bad input path, 0 when nothing is left, 3 for a failed import
      or an unexpected error on any remaining file, else 1 when some file
      fails validation, else 0. */
  ghost function ExpectedExit<D, S>(cfg: Config, fs: FileSystem, lib: Library<D, S>): ExitCode {
    var files := ToValidate(cfg, fs);
    var step := CheckStep(lib, cfg);
    if exists i :: 0 <= i < |cfg.paths| && !Usable(fs, Resolve(fs, cfg.paths[i])) then BadInputPath
    else if files == [] then Success
    else if lib.imported.Threw? then UnexpectedError
    else if exists f :: f in files && Crashes(step, f) then UnexpectedError
    else if exists f :: f in files && FailsValidation(step, f) then ValidationFailure
    else Success
  }

  /** When every input path is usable, the collector hands the remaining
      files, after exclusion, to the loop. */
  lemma CollectedFiles(cfg: Config, fs: FileSystem)
    requires forall i :: 0 <= i < |cfg.paths| ==> Usable(fs, Resolve(fs, cfg.paths[i]))
    ensures Collect(fs, cfg.paths) == Collected(ResolvedPaths(fs, cfg.paths))
    ensures ApplyExclude(Collect(fs, cfg.paths).files, cfg.exclude) == ToValidate(cfg, fs)
  {
    var c := Collect(fs, cfg.paths);
    assert c.files == ResolvedPaths(fs, cfg.paths);
    ExcludeAsSpecified(c.files, cfg.exclude);
    if cfg.exclude == [] {
      RetainedWithNoExcludes(c.files);
    }
  }

  /** The run ends with the code the reference definition gives. */
  lemma MainExitCode<D, S>(cfg: Config, fs: FileSystem, lib: Library<D, S>)
    requires |cfg.paths| > 0
    ensures Main(cfg, fs, lib).code == ExpectedExit(cfg, fs, lib)
  {
    if forall i :: 0 <= i < |cfg.paths| ==> Usable(fs, Resolve(fs, cfg.paths[i])) {
      var files := ToValidate(cfg, fs);
      if files == [] {
        MainNothingToScan(cfg, fs, lib);
      } else if lib.imported.Threw? {
        MainImportFails(cfg, fs, lib);
      } else {
        MainRunsLoop(cfg, fs, lib);
        DriveCode(CheckStep(lib, cfg), files, Success);
      }
    }
  }

  /** A bad input path ends the run with 2 at the first such path, before
      any exclusion, import or validation. */
  lemma MainRejectsFirstBadPath<D, S>(cfg: Config, fs: FileSystem, lib: Library<D, S>, k: int)
    requires 0 <= k < |cfg.paths|
    requires !Usable(fs, Resolve(fs, cfg.paths[k]))
    requires forall i :: 0 <= i < k ==> Usable(fs, Resolve(fs, cfg.paths[i]))
    ensures Main(cfg, fs, lib) == Run(BadInputPath, [PathRejected(Resolve(fs, cfg.paths[k]))])
  {
  }

  /** With nothing left after exclusion the run ends with 0, and yamale is
      neither imported nor called. */
  lemma MainNothingToScan<D, S>(cfg: Config, fs: FileSystem, lib: Library<D, S>)
    requires |cfg.paths| > 0
    requires forall i :: 0 <= i < |cfg.paths| ==> Usable(fs, Resolve(fs, cfg.paths[i]))
    requires ToValidate(cfg, fs) == []
    ensures Main(cfg, fs, lib) == Run(Success, [NothingToScan])
  {
    CollectedFiles(cfg, fs);
  }

  /** A failed `import yamale` ends the run with 3 before any file is
      loaded. */
  lemma MainImportFails<D, S>(cfg: Config, fs: FileSystem, lib: Library<D, S>)
    requires |cfg.paths| > 0
    requires forall i :: 0 <= i < |cfg.paths| ==> Usable(fs, Resolve(fs, cfg.paths[i]))
    requires ToValidate(cfg, fs) != [] && lib.imported.Threw?
    ensures Main(cfg, fs, lib) == Run(UnexpectedError, [ImportLibrary, Unexpected(lib.imported.error)])
  {
    CollectedFiles(cfg, fs);
  }

  /** The run's log is the import followed by the loop's log. */
  lemma MainRunsLoop<D, S>(cfg: Config, fs: FileSystem, lib: Library<D, S>)
    requires |cfg.paths| > 0
    requires forall i :: 0 <= i < |cfg.paths| ==> Usable(fs, Resolve(fs, cfg.paths[i]))
    requires lib.imported.Returned? && ToValidate(cfg, fs) != []
    ensures
      var d := Drive(CheckStep(lib, cfg), ToValidate(cfg, fs), Success);
      Main(cfg, fs, lib) == Run(d.code, [ImportLibrary] + d.log) &&
      Attempted(Main(cfg, fs, lib).log) == Attempted(d.log)
  {
    CollectedFiles(cfg, fs);
    var d := Drive(CheckStep(lib, cfg), ToValidate(cfg, fs), Success);
    AttemptedConcat([ImportLibrary], d.log);
    assert Attempted([ImportLibrary]) == [];
  }

  /** Without unexpected errors yamale loads every remaining file, in
      input order; validation failures do not stop the run. */
  lemma MainLoadsAll<D, S>(cfg: Config, fs: FileSystem, lib: Library<D, S>)
    requires |cfg.paths| > 0
    requires forall i :: 0 <= i < |cfg.paths| ==> Usable(fs, Resolve(fs, cfg.paths[i]))
    requires lib.imported.Returned?
    requires forall i :: 0 <= i < |ToValidate(cfg, fs)| ==> !Crashes(CheckStep(lib, cfg), ToValidate(cfg, fs)[i])
    ensures Attempted(Main(cfg, fs, lib).log) == ToValidate(cfg, fs)
  {
    var files := ToValidate(cfg, fs);
    if files == [] {
      MainNothingToScan(cfg, fs, lib);
    } else {
      MainRunsLoop(cfg, fs, lib);
      DriveAttemptsAll(CheckStep(lib, cfg), files, Success);
    }
  }

  /** The first unexpected error on a remaining file stops the run right
      after that file: yamale loads exactly the files up to it. */
  lemma MainStopsAtFirstCrash<D, S>(cfg: Config, fs: FileSystem, lib: Library<D, S>, k: int)
    requires |cfg.paths| > 0
    requires forall i :: 0 <= i < |cfg.paths| ==> Usable(fs, Resolve(fs, cfg.paths[i]))
    requires lib.imported.Returned?
    requires FirstCrashAt(CheckStep(lib, cfg), ToValidate(cfg, fs), k)
    ensures Attempted(Main(cfg, fs, lib).log) == ToValidate(cfg, fs)[..k + 1]
  {
    MainRunsLoop(cfg, fs, lib);
    DriveStopsAtFirstCrash(CheckStep(lib, cfg), ToValidate(cfg, fs), Success, k);
  }

  /** Every `validate` call of a run uses strictness `not no_strict` and
      the schema located for the file being validated. */
  lemma MainValidatesAsConfigured<D, S>(cfg: Config, fs: FileSystem, lib: Library<D, S>)
    requires |cfg.paths| > 0
    ensures ValidatesAsConfigured(Main(cfg, fs, lib).log, cfg)
  {
    var c := Collect(fs, cfg.paths);
    if c.Collected? {
      var files := ApplyExclude(c.files, cfg.exclude);
      if files != [] && lib.imported.Returned? {
        DriveValidatesAsConfigured(CheckStep(lib, cfg), cfg, files, Success);
      }
    }
  }
}
