/**
 * The abstract operating system the downloader works against: path strings,
 * `os.path.join`, and a filesystem made of regular files (full path to
 * content) and directories.
 */
module Os {
  import opened Wrappers

  type Byte = bv8
  type Bytes = seq<Byte>
  type Path = string

  /** The exceptions the filesystem operations of the core can raise. */
  datatype IoError =
    | FileNotFound(path: Path)
    | IsADirectory(path: Path)
    | NotADirectory(path: Path)
    | UnicodeDecodeError(path: Path)

  predicate IsAbsolute(p: Path) {
    |p| > 0 && p[0] == '/'
  }

  /**
   * `os.path.join(dir, name)` for two components, joined the POSIX way: an
   * absolute `name` replaces `dir`; otherwise a separator is inserted unless
   * `dir` is empty or already ends in one.
   */
  function Join(dir: Path, name: Path): (r: Path)
    ensures IsAbsolute(name) ==> r == name
    ensures !IsAbsolute(name) ==> |dir| + |name| <= |r| <= |dir| + 1 + |name|
  {
    if IsAbsolute(name) then name
    else if dir == [] || dir[|dir| - 1] == '/' then dir + name
    else dir + "/" + name
  }

  /** A snapshot of the filesystem. */
  datatype Fs = Fs(files: map<Path, Bytes>, dirs: set<Path>) {
    /** No path is both a regular file and a directory. */
    predicate Valid() {
      files.Keys !! dirs
    }

    /** `os.path.isfile` */
    predicate IsFile(p: Path) {
      p in files
    }

    /** `os.path.exists`: a file or a directory is there. */
    predicate Exists(p: Path) {
      p in files || p in dirs
    }
  }

  /** `os.remove(p)`: unlinks a regular file; raises for a directory or a missing path. */
  function RemoveFile(w: Fs, p: Path): (r: Result<Fs, IoError>)
    ensures r.Success? <==> w.IsFile(p)
    ensures r.Success? ==> !r.value.IsFile(p) && r.value.dirs == w.dirs
    ensures r.Success? && w.Valid() ==> !r.value.Exists(p) && r.value.Valid()
    ensures r.Success? ==> forall q :: q != p ==> (q in r.value.files <==> q in w.files)
    ensures r.Success? ==> forall q :: q in r.value.files ==> r.value.files[q] == w.files[q]
    ensures r.Failure? ==> r.error == if p in w.dirs then IsADirectory(p) else FileNotFound(p)
  {
    if p in w.files then Success(w.(files := w.files - {p}))
    else if p in w.dirs then Failure(IsADirectory(p))
    else Failure(FileNotFound(p))
  }

  /**
   * The filesystem the code of this repository runs against, updated in place
   * by the operations that delete, create and write.
   */
  class FileSystem {
    var files: map<Path, Bytes>
    var dirs: set<Path>

    constructor (w: Fs)
      ensures State() == w
    {
      files := w.files;
      dirs := w.dirs;
    }

    function State(): Fs
      reads this
    {
      Fs(files, dirs)
    }

    predicate Valid()
      reads this
    {
      State().Valid()
    }
  }
}
