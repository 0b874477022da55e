/** The parsed command line of the hook, and its process exit codes. */
module HookConfig {

  /** The YAML backend yamale loads files with (`--parser`). */
  datatype Parser = PyYaml | Ruamel

  /** The options after argument parsing; immutable for the whole run.
      `exclude` is empty when no `--exclude` was given. The defaults are
      schema "schema.yaml", parser PyYaml and every flag false. */
  datatype Config = Config(
    schema: string,
    parser: Parser,
    noStrict: bool,
    noRecursive: bool,
    exclude: seq<string>,
    debug: bool,
    paths: seq<string>)

  /** 0: everything validated or nothing to check; 1: some file failed
      validation; 2: an input path is not an existing file; 3: an
      unexpected error. */
  type ExitCode = c: int | 0 <= c <= 3

  const Success: ExitCode := 0
  const ValidationFailure: ExitCode := 1
  const BadInputPath: ExitCode := 2
  const UnexpectedError: ExitCode := 3
}
