/** Outcomes of the operations the application delegates to the operating
    system: running an external program and reading a file. */
module Outcomes {

  datatype Option<+T> = None | Some(value: T)

  datatype Result<+R, +E> = Ok(value: R) | Err(error: E)

  /** What `subprocess.check_output` / `check_call` observe: the executable
      was not found (`FileNotFoundError`); the call raised something else
      the callers here do not catch (another `OSError` while spawning, or,
      for the `check_output(..., text=True)` of `conda env list`, a
      `UnicodeDecodeError` when the output holds bytes the locale codec
      cannot decode, which happens before the exit status is looked at);
      or the child ran and exited with a status, its merged standard output
      and error read as text. A non-zero status raises `CalledProcessError`.
      `check_call` and the version check's `check_output` decode nothing,
      so for them `Raised` is a spawn error only. */
  datatype ProcessResult = NotFound | Raised | Exited(code: int, output: string)

  /** The exceptions the modelled code lets escape to its caller. */
  datatype Failure =
    | ExecutableNotFound
    | CalledProcessError(returnCode: int)
    | ReadError
    | OtherError
}
