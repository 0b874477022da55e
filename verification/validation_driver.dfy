/** The validation driver of the hook: for each remaining file, load it,
    locate its schema, skip it when it is that schema, and run yamale,
    folding the per-file outcomes into one exit code. yamale itself is an
    oracle: a record of functions whose answers the model takes as given. */
module ValidationDriver {
  import opened HookConfig
  import opened PosixPath

  /** One entry of a `YamaleError`'s results: the data and schema it
      concerns and its error messages, in order. */
  datatype Report = Report(data: string, schema: string, errors: seq<string>)

  /** The exceptions yamale can raise, grouped by how the hook treats them. */
  datatype Raised =
    | NotFound                      // FileNotFoundError
    | Invalid(reports: seq<Report>) // yamale.YamaleError
    | Other(message: string)        // any other exception

  /** The outcome of one call into the library. */
  datatype Call<T> = Returned(value: T) | Threw(error: Raised)

  /** yamale as seen by the hook: whether `import yamale` succeeds, and the
      outcomes of `make_data`, `make_schema` and `validate`. `D` and `S` are
      the library's loaded-data and loaded-schema objects. */
  datatype Library<!D, !S> = Library(
    imported: Call<()>,
    makeData: (string, Parser) -> Call<D>,
    makeSchema: (string, Parser) -> Call<S>,
    validate: (S, D, bool) -> Call<()>)

  /** What a run does that can be observed: the console messages it prints
      and the library calls it makes, in order. */
  datatype Event =
    | PathRejected(path: string)                        // "does not exists or not a file"
    | NothingToScan                                     // "No files to scan."
    | ImportLibrary                                     // `import yamale`
    | LoadData(file: string, parser: Parser)            // `make_data`
    | LoadSchema(schemaPath: string, parser: Parser)    // `make_schema`
    | SchemaNotFound(file: string, schemaPath: string)  // "Skip: schema not found."
    | Validate(file: string, schemaPath: string, strict: bool) // "Validating: ..." then `validate`
    | Okay                                              // "Okay!"
    | ValidationFailed(reports: seq<Report>)            // "Validation failed!" and every message
    | Unexpected(error: Raised)                         // the outer handler prints the exception

  datatype FileStatus =
    | Validated
    | SelfSkipped
    | SchemaMissing
    | Failed(reports: seq<Report>)
    | Crashed(error: Raised)

  datatype FileRun = FileRun(status: FileStatus, log: seq<Event>)

  datatype Run = Run(code: ExitCode, log: seq<Event>)

  /** The files whose data the run loaded, in order. */
  function Attempted(log: seq<Event>): seq<string> {
    if log == [] then []
    else (if log[0].LoadData? then [log[0].file] else []) + Attempted(log[1..])
  }

  /** Every `validate` call of the log uses the configured strictness and
      the schema located for the file it validates. */
  predicate ValidatesAsConfigured(log: seq<Event>, cfg: Config) {
    forall e :: e in log && e.Validate? ==>
      e.strict == !cfg.noStrict && e.schemaPath == SchemaPathFor(e.file, cfg.schema)
  }

  /** The schema for `file`: the configured path when it is absolute,
      otherwise that path taken relative to the file's own directory. */
  function SchemaPathFor(file: string, schema: string): (r: string)
    ensures IsAbs(schema) ==> r == schema
    ensures !IsAbs(schema) ==> Dirname(file) <= r
    ensures !IsAbs(schema) && Dirname(file) != [] ==> |r| > |schema| && r[|r| - |schema| - 1] == Sep
    ensures |schema| <= |r| && r[|r| - |schema|..] == schema
    ensures !IsAbs(schema) ==>
      |r| == |Dirname(file)| + |schema| + (if Dirname(file) == [] || EndsWithSep(Dirname(file)) then 0 else 1)
  {
    if IsAbs(schema) then schema else Join(Dirname(file), schema)
  }

  /** For a file `dir/name`, a relative schema is looked up beside it. */
  lemma SchemaBesideFile(dir: string, name: string, schema: string)
    requires !EndsWithSep(dir) && NoSep(name) && !IsAbs(schema)
    ensures SchemaPathFor(dir + [Sep] + name, schema) == dir + [Sep] + schema
  {
    DirnameOfChild(dir, name);
    if dir == [] {
      assert [Sep] + schema == dir + [Sep] + schema;
    }
  }

  /** With a relative schema, a file `dir/name` is skipped as its own
      schema exactly when its base name is the schema path. */
  lemma SelfSkipByName(dir: string, name: string, schema: string)
    requires !EndsWithSep(dir) && NoSep(name) && !IsAbs(schema)
    ensures dir + [Sep] + name == SchemaPathFor(dir + [Sep] + name, schema) <==> name == schema
  {
    SchemaBesideFile(dir, name, schema);
    if dir + [Sep] + name == dir + [Sep] + schema {
      assert name == (dir + [Sep] + name)[|dir| + 1..];
      assert schema == (dir + [Sep] + schema)[|dir| + 1..];
    }
  }

  /** The last step of an iteration: `validate` with the configured
      strictness. Only `YamaleError` is caught here; any other exception,
      `FileNotFoundError` included, escapes to the outer handler. */
  function ValidateLoaded<D, S>(lib: Library<D, S>, cfg: Config, file: string, sp: string, schema: S, data: D): (r: FileRun)
    ensures |r.log| > 0 && r.log[0] == Validate(file, sp, !cfg.noStrict)
    ensures forall e :: e in r.log ==> !e.LoadData?
    ensures forall e :: e in r.log && e.Validate? ==> e == Validate(file, sp, !cfg.noStrict)
    ensures r.status == Validated <==> lib.validate(schema, data, !cfg.noStrict).Returned?
    ensures r.status.Failed? <==>
      lib.validate(schema, data, !cfg.noStrict).Threw? && lib.validate(schema, data, !cfg.noStrict).error.Invalid?
    ensures r.status.Crashed? <==>
      lib.validate(schema, data, !cfg.noStrict).Threw? && !lib.validate(schema, data, !cfg.noStrict).error.Invalid?
    ensures r.status.Failed? ==> r.status.reports == lib.validate(schema, data, !cfg.noStrict).error.reports
    ensures r.status.Crashed? ==> r.status.error == lib.validate(schema, data, !cfg.noStrict).error
    ensures r.status == Validated ==> r.log[|r.log| - 1] == Okay
    ensures r.status.Failed? ==> r.log[|r.log| - 1] == ValidationFailed(r.status.reports)
    ensures r.status.Crashed? ==> r.log[|r.log| - 1] == Unexpected(r.status.error)
  {
    var check := Validate(file, sp, !cfg.noStrict);
    match lib.validate(schema, data, !cfg.noStrict)
    case Returned(_) => FileRun(Validated, [check, Okay])
    case Threw(Invalid(reports)) => FileRun(Failed(reports), [check, ValidationFailed(reports)])
    case Threw(e) => FileRun(Crashed(e), [check, Unexpected(e)])
  }

  /** The middle of an iteration, once the data has loaded and the schema
      path `sp` is located: skip the file when it is that schema, then load
      the schema. `FileNotFoundError` from `make_schema` skips the file,
      `YamaleError` marks it failed, anything else escapes. */
  function CheckLoaded<D, S>(lib: Library<D, S>, cfg: Config, file: string, sp: string, data: D): (r: FileRun)
    ensures forall e :: e in r.log ==> !e.LoadData?
    ensures forall e :: e in r.log && e.Validate? ==> e == Validate(file, sp, !cfg.noStrict)
    ensures r.status == SelfSkipped <==> file == sp
    ensures r.status == SelfSkipped <==> r.log == []
    ensures
      var schema := lib.makeSchema(sp, cfg.parser);
      && (r.status == SchemaMissing <==> file != sp && schema == Threw(NotFound))
      && (r.status.Failed? <==>
            file != sp &&
            ((schema.Threw? && schema.error.Invalid?) ||
             (schema.Returned? && ValidateLoaded(lib, cfg, file, sp, schema.value, data).status.Failed?)))
      && (r.status == Validated <==>
            file != sp && schema.Returned? && ValidateLoaded(lib, cfg, file, sp, schema.value, data).status == Validated)
      && (r.status.Crashed? <==>
            file != sp &&
            ((schema.Threw? && schema.error.Other?) ||
             (schema.Returned? && lib.validate(schema.value, data, !cfg.noStrict).Threw? &&
              !lib.validate(schema.value, data, !cfg.noStrict).error.Invalid?)))
      // The reports and the error are those of the exception actually raised.
      && (r.status.Failed? ==>
            r.status.reports ==
              if schema.Threw? then schema.error.reports
              else lib.validate(schema.value, data, !cfg.noStrict).error.reports)
      && (r.status.Crashed? ==>
            r.status.error ==
              if schema.Threw? then schema.error
              else lib.validate(schema.value, data, !cfg.noStrict).error)
    ensures r.status.Failed? ==> r.log[|r.log| - 1] == ValidationFailed(r.status.reports)
    ensures r.status.Crashed? ==> r.log[|r.log| - 1] == Unexpected(r.status.error)
  {
    if file == sp then FileRun(SelfSkipped, [])
    else
      var look := LoadSchema(sp, cfg.parser);
      match lib.makeSchema(sp, cfg.parser)
      case Threw(NotFound) => FileRun(SchemaMissing, [look, SchemaNotFound(file, sp)])
      case Threw(Invalid(reports)) => FileRun(Failed(reports), [look, ValidationFailed(reports)])
      case Threw(Other(m)) => FileRun(Crashed(Other(m)), [look, Unexpected(Other(m))])
      case Returned(schema) =>
        var v := ValidateLoaded(lib, cfg, file, sp, schema, data);
        FileRun(v.status, [look] + v.log)
  }

  /** One iteration of the hook's loop. `make_data` sits outside every
      inner handler, so any exception it raises, even `FileNotFoundError`
      or `YamaleError`, escapes to the outer handler. */
  function CheckFile<D, S>(lib: Library<D, S>, cfg: Config, file: string): (r: FileRun)
    ensures |r.log| > 0 && r.log[0] == LoadData(file, cfg.parser)
    ensures forall e :: e in r.log[1..] ==> !e.LoadData?
    ensures lib.makeData(file, cfg.parser).Threw? ==> r.status == Crashed(lib.makeData(file, cfg.parser).error)
    ensures r.status == SelfSkipped <==>
      lib.makeData(file, cfg.parser).Returned? && file == SchemaPathFor(file, cfg.schema)
    ensures r.status == SelfSkipped ==> r.log == [LoadData(file, cfg.parser)]
    ensures r.status.Failed? ==> r.log[|r.log| - 1] == ValidationFailed(r.status.reports)
    ensures r.status.Crashed? ==> r.log[|r.log| - 1] == Unexpected(r.status.error)
  {
    var load := LoadData(file, cfg.parser);
    match lib.makeData(file, cfg.parser)
    case Threw(e) => FileRun(Crashed(e), [load, Unexpected(e)])
    case Returned(data) =>
      var rest := CheckLoaded(lib, cfg, file, SchemaPathFor(file, cfg.schema), data);
      FileRun(rest.status, [load] + rest.log)
  }

  /** What escapes an iteration to the outer handler: any exception from
      `make_data`, an exception from `make_schema` that is neither
      `FileNotFoundError` nor `YamaleError`, and an exception from `validate`
      that is not `YamaleError`. A file skipped as its own schema never
      reaches `make_schema`. */
  lemma CheckFileCrashes<D, S>(lib: Library<D, S>, cfg: Config, file: string)
    ensures
      var sp := SchemaPathFor(file, cfg.schema);
      var data := lib.makeData(file, cfg.parser);
      var schema := lib.makeSchema(sp, cfg.parser);
      CheckFile(lib, cfg, file).status.Crashed? <==>
        || data.Threw?
        || (file != sp && schema.Threw? && schema.error.Other?)
        || (file != sp && schema.Returned? &&
            lib.validate(schema.value, data.value, !cfg.noStrict).Threw? &&
            !lib.validate(schema.value, data.value, !cfg.noStrict).error.Invalid?)
  {
    var data := lib.makeData(file, cfg.parser);
    if data.Returned? {
      var rest := CheckLoaded(lib, cfg, file, SchemaPathFor(file, cfg.schema), data.value);
      assert CheckFile(lib, cfg, file).status == rest.status;
    }
  }

  /** One iteration of the loop bound to a library and a configuration. */
  function CheckStep<D, S>(lib: Library<D, S>, cfg: Config): (step: string -> FileRun)
    ensures forall file :: Attempted(step(file).log) == [file]
    ensures forall file :: ValidatesAsConfigured(step(file).log, cfg)
  {
    forall file
      ensures Attempted(CheckFile(lib, cfg, file).log) == [file]
      ensures ValidatesAsConfigured(CheckFile(lib, cfg, file).log, cfg)
    {
      CheckFileAttempts(lib, cfg, file);
      CheckFileValidatesAsConfigured(lib, cfg, file);
    }
    (file: string) => CheckFile(lib, cfg, file)
  }

  predicate Crashes(step: string -> FileRun, file: string) {
    step(file).status.Crashed?
  }

  predicate FailsValidation(step: string -> FileRun, file: string) {
    step(file).status.Failed?
  }

  /** The loop of the hook over `files`, with `ret` the code accumulated so
      far and `step` one iteration: an unexpected error ends the loop with
      3, a validation failure sets 1, anything else leaves the code alone. */
  function Drive(step: string -> FileRun, files: seq<string>, ret: ExitCode): (r: Run)
    requires ret == Success || ret == ValidationFailure
    ensures ret <= r.code && r.code != BadInputPath
    decreases |files|
  {
    if files == [] then Run(ret, [])
    else
      var f := step(files[0]);
      if f.status.Crashed? then Run(UnexpectedError, f.log)
      else
        var rest := Drive(step, files[1..], if f.status.Failed? then ValidationFailure else ret);
        Run(rest.code, f.log + rest.log)
  }

  lemma {:induction false} AttemptedConcat(a: seq<Event>, b: seq<Event>)
    ensures Attempted(a + b) == Attempted(a) + Attempted(b)
  {
    if a == [] {
      assert a + b == b;
    } else {
      assert (a + b)[0] == a[0];
      assert (a + b)[1..] == a[1..] + b;
      AttemptedConcat(a[1..], b);
    }
  }

  /** Exit-code precedence of the loop: an unexpected error on any file
      gives 3 and overrides failures; otherwise a failure (now or before)
      gives 1; otherwise the code stays 0. */
  lemma {:induction false} DriveCode(step: string -> FileRun, files: seq<string>, ret: ExitCode)
    requires ret == Success || ret == ValidationFailure
    ensures Drive(step, files, ret).code == UnexpectedError <==>
      exists f :: f in files && Crashes(step, f)
    ensures Drive(step, files, ret).code == ValidationFailure <==>
      (forall f :: f in files ==> !Crashes(step, f)) &&
      (ret == ValidationFailure || exists f :: f in files && FailsValidation(step, f))
    ensures Drive(step, files, ret).code == Success <==>
      (forall f :: f in files ==> !Crashes(step, f) && !FailsValidation(step, f)) && ret == Success
    decreases |files|
  {
    if files != [] {
      assert files == [files[0]] + files[1..];
      if !Crashes(step, files[0]) {
        var next: ExitCode := if FailsValidation(step, files[0]) then ValidationFailure else ret;
        DriveCode(step, files[1..], next);
      }
    }
  }

  /** A file that neither fails nor crashes, such as one skipped as its own
      schema or for a missing schema, does not change the exit code,
      wherever it stands in the list. */
  lemma NeutralFileKeepsCode(step: string -> FileRun, before: seq<string>, file: string, after: seq<string>, ret: ExitCode)
    requires ret == Success || ret == ValidationFailure
    requires !Crashes(step, file) && !FailsValidation(step, file)
    ensures Drive(step, before + [file] + after, ret).code == Drive(step, before + after, ret).code
  {
    DriveCode(step, before + [file] + after, ret);
    DriveCode(step, before + after, ret);
    forall f ensures f in before + [file] + after <==> f in before + after || f == file { }
  }

  lemma {:induction false} AttemptedNone(log: seq<Event>)
    requires forall i :: 0 <= i < |log| ==> !log[i].LoadData?
    ensures Attempted(log) == []
  {
    if log != [] {
      AttemptedNone(log[1..]);
    }
  }

  /** Each iteration loads exactly the file it is given. */
  lemma CheckFileAttempts<D, S>(lib: Library<D, S>, cfg: Config, file: string)
    ensures Attempted(CheckFile(lib, cfg, file).log) == [file]
  {
    var log := CheckFile(lib, cfg, file).log;
    var tail := log[1..];
    forall i | 0 <= i < |tail| ensures !tail[i].LoadData? {
      assert tail[i] in tail;
    }
    AttemptedNone(tail);
    assert log == [log[0]] + tail;
    AttemptedConcat([log[0]], tail);
  }

  /** Each iteration calls `validate` only for its own file, with the
      configured strictness and the schema located for that file. */
  lemma CheckFileValidatesAsConfigured<D, S>(lib: Library<D, S>, cfg: Config, file: string)
    ensures ValidatesAsConfigured(CheckFile(lib, cfg, file).log, cfg)
  {
    var data := lib.makeData(file, cfg.parser);
    if data.Returned? {
      var sp := SchemaPathFor(file, cfg.schema);
      var rest := CheckLoaded(lib, cfg, file, sp, data.value);
      assert CheckFile(lib, cfg, file).log == [LoadData(file, cfg.parser)] + rest.log;
      forall e | e in CheckFile(lib, cfg, file).log && e.Validate?
        ensures e == Validate(file, sp, !cfg.noStrict)
      {
        assert e in rest.log;
      }
    }
  }

  /** No file before position `k` crashes, and the one at `k` does. */
  predicate FirstCrashAt(step: string -> FileRun, files: seq<string>, k: int) {
    && 0 <= k < |files|
    && Crashes(step, files[k])
    && forall i :: 0 <= i < k ==> !Crashes(step, files[i])
  }

  /** Without unexpected errors every file is loaded, in input order: a
      validation failure does not stop the loop. */
  lemma {:induction false} DriveAttemptsAll(step: string -> FileRun, files: seq<string>, ret: ExitCode)
    requires ret == Success || ret == ValidationFailure
    requires forall file :: Attempted(step(file).log) == [file]
    requires forall i :: 0 <= i < |files| ==> !Crashes(step, files[i])
    ensures Attempted(Drive(step, files, ret).log) == files
    decreases |files|
  {
    if files != [] {
      var f := step(files[0]);
      assert !Crashes(step, files[0]);
      var next: ExitCode := if f.status.Failed? then ValidationFailure else ret;
      var tail := files[1..];
      forall i | 0 <= i < |tail| ensures !Crashes(step, tail[i]) {
        assert tail[i] == files[i + 1];
      }
      DriveAttemptsAll(step, tail, next);
      AttemptedConcat(f.log, Drive(step, tail, next).log);
      assert [files[0]] + tail == files;
    }
  }

  /** The first unexpected error ends the loop right after its own file:
      the files loaded are exactly those up to and including it. */
  lemma {:induction false} DriveStopsAtFirstCrash(step: string -> FileRun, files: seq<string>, ret: ExitCode, k: int)
    requires ret == Success || ret == ValidationFailure
    requires forall file :: Attempted(step(file).log) == [file]
    requires FirstCrashAt(step, files, k)
    ensures Attempted(Drive(step, files, ret).log) == files[..k + 1]
    decreases |files|
  {
    var f := step(files[0]);
    if k == 0 {
      assert f.status.Crashed?;
      assert files[..1] == [files[0]];
    } else {
      assert !Crashes(step, files[0]);
      var next: ExitCode := if f.status.Failed? then ValidationFailure else ret;
      var tail := files[1..];
      assert tail[k - 1] == files[k];
      forall i | 0 <= i < k - 1 ensures !Crashes(step, tail[i]) {
        assert tail[i] == files[i + 1];
      }
      DriveStopsAtFirstCrash(step, tail, next, k - 1);
      AttemptedConcat(f.log, Drive(step, tail, next).log);
      assert [files[0]] + tail[..k] == files[..k + 1];
    }
  }

  /** Every `validate` call of the loop uses the configured strictness and
      the schema located for its file. */
  lemma {:induction false} DriveValidatesAsConfigured(step: string -> FileRun, cfg: Config, files: seq<string>, ret: ExitCode)
    requires ret == Success || ret == ValidationFailure
    requires forall file :: ValidatesAsConfigured(step(file).log, cfg)
    ensures ValidatesAsConfigured(Drive(step, files, ret).log, cfg)
    decreases |files|
  {
    if files != [] {
      var f := step(files[0]);
      if !f.status.Crashed? {
        var next: ExitCode := if f.status.Failed? then ValidationFailure else ret;
        DriveValidatesAsConfigured(step, cfg, files[1..], next);
      }
    }
  }
}
