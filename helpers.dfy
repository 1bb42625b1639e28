/**
 * The module-level helpers `delete`, `is_exist` and
 * `create_folder_if_not_exists`.
 */
module Helpers {
  import opened Wrappers
  import opened Os

  /**
   * `is_exist(file_name, path)`: a regular file is at the joined path. Unlike
   * `os.path.exists`, a directory there does not count.
   */
  predicate IsExist(w: Fs, fileName: Path, path: Path): (r: bool)
    ensures r ==> w.Exists(Join(path, fileName))
    ensures w.Valid() && Join(path, fileName) in w.dirs ==> !r
  {
    w.IsFile(Join(path, fileName))
  }

  /** Once `delete` has succeeded, the existence check is false for the same file name and directory. */
  lemma DeleteThenNotExist(w: Fs, fileName: Path, path: Path)
    requires RemoveFile(w, Join(path, fileName)).Success?
    ensures !IsExist(RemoveFile(w, Join(path, fileName)).value, fileName, path)
  {
  }

  /**
   * What `create_folder_if_not_exists(path)` does to the filesystem:
   * `os.makedirs` runs only when nothing exists at `path`. The empty path
   * never exists, and `os.makedirs("")` raises FileNotFoundError.
   */
  function EnsureFolder(w: Fs, path: Path): (r: Result<Fs, IoError>)
    ensures r.Failure? <==> path == ""
    ensures r.Failure? ==> r.error == FileNotFound(path)
    ensures r.Success? ==> r.value.Exists(path) && r.value.files == w.files
    ensures r.Success? && w.Exists(path) ==> r.value == w
    ensures r.Success? && !w.Exists(path) ==> r.value.dirs == w.dirs + {path}
    ensures r.Success? && w.Valid() ==> r.value.Valid()
  {
    if path == "" then Failure(FileNotFound(path))
    else if w.Exists(path) then Success(w)
    else Success(w.(dirs := w.dirs + {path}))
  }

  lemma EnsureFolderIdempotent(w: Fs, path: Path)
    requires EnsureFolder(w, path).Success?
    ensures EnsureFolder(EnsureFolder(w, path).value, path) == EnsureFolder(w, path)
  {
  }

  /** `delete(file_name, path)`: `os.remove` of the joined path, raising when it is not a regular file. */
  method Delete(fs: FileSystem, fileName: Path, path: Path) returns (err: Option<IoError>)
    requires fs.Valid()
    modifies fs
    ensures fs.Valid()
    ensures match RemoveFile(old(fs.State()), Join(path, fileName))
            case Success(w) => err == None && fs.State() == w
            case Failure(e) => err == Some(e) && fs.State() == old(fs.State())
  {
    var full := Join(path, fileName);
    if full in fs.files {
      fs.files := fs.files - {full};
      err := None;
    } else if full in fs.dirs {
      err := Some(IsADirectory(full));
    } else {
      err := Some(FileNotFound(full));
    }
  }

  /** `create_folder_if_not_exists(folder_path)` */
  method CreateFolderIfNotExists(fs: FileSystem, folderPath: Path) returns (err: Option<IoError>)
    requires fs.Valid()
    modifies fs
    ensures fs.Valid()
    ensures match EnsureFolder(old(fs.State()), folderPath)
            case Success(w) => err == None && fs.State() == w
            case Failure(e) => err == Some(e) && fs.State() == old(fs.State())
  {
    err := None;
    if folderPath == "" {
      err := Some(FileNotFound(folderPath));
    } else if !fs.State().Exists(folderPath) {
      fs.dirs := fs.dirs + {folderPath};
    }
  }
}
