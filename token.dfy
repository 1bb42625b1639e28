/** The `DownloadTokenLoader` node: resolves a token from one of three source kinds. */
module TokenLoader {
  import opened Wrappers
  import opened Os

  const KindPlain: string := "plain"
  const KindEnvVar: string := "environment variable"
  const KindPath: string := "path to file"

  /** Reading a file in text mode: the bytes decoded by `decode`, which fails on malformed input. */
  function ReadText(w: Fs, p: Path, decode: Bytes -> Option<string>): (r: Result<string, IoError>)
    ensures r.Success? <==> p in w.files && decode(w.files[p]).Some?
    ensures r.Success? ==> Some(r.value) == decode(w.files[p])
    ensures r.Failure? && p !in w.files ==> r.error == if p in w.dirs then IsADirectory(p) else FileNotFound(p)
    ensures r.Failure? && p in w.files ==> r.error == UnicodeDecodeError(p)
  {
    if p in w.files then
      match decode(w.files[p])
      case Some(t) => Success(t)
      case None => Failure(UnicodeDecodeError(p))
    else if p in w.dirs then Failure(IsADirectory(p))
    else Failure(FileNotFound(p))
  }

  /**
   * `load(value, type)`: the environment kind looks `value` up (absent when
   * unset); the plain kind reads the file named by `value`; every other kind,
   * "path to file" among them, returns `value` as it is.
   */
  function Load(value: string, kind: string, env: map<string, string>, w: Fs,
                decode: Bytes -> Option<string>): (r: Result<Option<string>, IoError>)
    ensures kind == KindEnvVar ==> r.Success? && (r.value.Some? <==> value in env)
    ensures kind == KindEnvVar && value in env ==> r.value.value == env[value]
    ensures kind == KindPlain ==> (r.Success? <==> value in w.files && decode(w.files[value]).Some?)
    ensures kind == KindPlain && r.Success? ==> r.value == decode(w.files[value])
    ensures kind != KindEnvVar && kind != KindPlain ==> r == Success(Some(value))
  {
    var v := if kind == KindEnvVar then (if value in env then Some(env[value]) else None) else Some(value);
    if kind == KindPlain then
      match ReadText(w, value, decode)
      case Success(t) => Success(Some(t))
      case Failure(e) => Failure(e)
    else Success(v)
  }

  /** The "path to file" kind reads neither the environment nor the filesystem. */
  lemma PathKindReturnsValue(value: string, env: map<string, string>, w: Fs, decode: Bytes -> Option<string>)
    ensures Load(value, KindPath, env, w, decode) == Success(Some(value))
  {
  }
}
