# comfyui-downloader, modelled in Dafny

A model of the downloader plugin for a node-based pipeline host
(`ComfyDownloader.py`). The plugin has three nodes:

- **Downloader** (`downloader`): optionally force-deletes the target file. It
  then checks whether a regular file exists at `os.path.join(path, file_name)`.
  If none does, it creates the directory and streams the HTTP response body to
  that file. Either way it appends one line to the download summary list that
  the host threads from node to node.
- **Download Summary Parser** (`parse`): renders that list as a leading line
  break followed by one `- <entry>` line per entry.
- **Download Token Loader** (`load`): resolves a bearer token from an
  environment variable, from a file's contents, or returns the given value
  unchanged.

The world the code acts on is abstract:

- The filesystem is a map from full path to bytes plus a set of directories
  (`Os.Fs`). The in-place `Os.FileSystem` object is what the delete, create
  and write operations update.
- The environment is a map.
- The HTTP server is a function from the request sent (url and headers) to
  the chunks `iter_content` yields.
- `os.path.join` is given its POSIX meaning for two components (`Os.Join`).

Modules: `Wrappers` (Option, Result), `Os`, `Helpers` (`delete`, `is_exist`,
`create_folder_if_not_exists`), `Fetch` (`download_file`), `DownloaderNode`,
`SummaryParser` and `TokenLoader`.

Exceptions the code can raise are modelled as `Failure` results:

- `os.remove` of a missing path or of a directory.
- `os.makedirs("")`, which runs when the directory path is empty, because
  the empty path never exists.
- `open(..., 'wb')` when the target is a directory, or when `path` is a
  regular file.
- Reading a token file that is missing, is a directory, or does not decode.

An exception in `downloader` leaves the summary list untouched. The
filesystem keeps whatever was already done before the exception (a deletion,
a created directory).

Despite its name, the "path to file" token kind matches neither branch of
`load` (ComfyDownloader.py:151-155), so the value comes back unchanged, and
`TokenLoader.Load` does the same.

The fetch and the Downloader node take the header choice as a parameter
(`Fetch.OriginTest`). `PrefixTest` is the prefix test the code uses, so
`DownloaderNode.Run` with `PrefixTest` is the node as written.
`OriginBoundary` is the corrected test described under Findings.

## Model

| member | source | states |
|---|---|---|
| `Os.Join` | ComfyDownloader.py:25 | `os.path.join` of a directory and a file name: an absolute file name replaces the directory; otherwise the result is the two joined with at most one added separator |
| `Os.RemoveFile` | ComfyDownloader.py:10-11 | `os.remove` succeeds exactly when a regular file is at the path; it then removes that file only and keeps the filesystem invariant; otherwise it raises IsADirectory for a directory and FileNotFound for a missing path |
| `Helpers.Delete` | ComfyDownloader.py:10-11 | deletes the file at the joined path, or reports the exception and leaves the filesystem as it was |
| `Helpers.IsExist` | ComfyDownloader.py:13-28 | true only when something exists at the joined path, and never for a directory there: only a regular file counts |
| `Helpers.DeleteThenNotExist` | ComfyDownloader.py:10-28 | after a successful `delete` of a file name in a directory, `is_exist` for the same pair is false |
| `Helpers.EnsureFolder` | ComfyDownloader.py:50-52 | the empty path raises FileNotFound (it never exists, and `os.makedirs("")` fails); otherwise something exists at the path afterwards, files are untouched, an existing path leaves everything unchanged, and a missing one adds exactly that directory |
| `Helpers.EnsureFolderIdempotent` | ComfyDownloader.py:50-52 | once creating the folder has succeeded, creating it again changes nothing |
| `Helpers.CreateFolderIfNotExists` | ComfyDownloader.py:50-53 | the in-place directory creation has exactly the effect of `EnsureFolder`, raising for the empty path with the filesystem unchanged, and keeps the invariant that no path is both a file and a directory |
| `Fetch.BlocksConcat` | ComfyDownloader.py:41-46 | cutting the body into 4096-byte blocks and writing them in order reproduces the body byte for byte |
| `Fetch.PrefixAuthHeaders` | ComfyDownloader.py:33-38 | as written: the Authorization header `Bearer <token>` is present exactly when a token is given and the url starts with `https://huggingface.co`; no other header is ever set |
| `Fetch.PrefixAuthHeadersLeakToken` | ComfyDownloader.py:35-36 | the prefix test gives the token to `https://huggingface.co.evil.example/model.bin`, whose host is not the allowed one |
| `Fetch.OriginMatchesIsAllowedOrigin` | ComfyDownloader.py:35 | the boundary-checked prefix test holds exactly when the url is https and its authority is `huggingface.co` |
| `Fetch.AuthHeaders` | ComfyDownloader.py:33-38 | the corrected header choice: `Authorization: Bearer <token>` exactly when a token is given and the url's origin is `https://huggingface.co`; a token with another origin gives an empty map |
| `Fetch.AuthHeadersRefinePrefix` | ComfyDownloader.py:33-38 | the corrected choice agrees with the prefix test whenever it sends the token; they differ only on urls that start with the prefix but name another host |
| `Fetch.RequestHeaders` | ComfyDownloader.py:33-38 | under either test at most the bearer header `Bearer <token>` is sent, only with a token and a url starting with `https://huggingface.co`; `PrefixTest` gives exactly the source's map, `OriginBoundary` the corrected one |
| `Fetch.FetchSpec` | ComfyDownloader.py:30-46 | an empty directory path raises FileNotFound before any request; otherwise the request carries the chosen headers; directories change only by the folder creation; success exactly when `path` is not a file and the target is not a directory, with paths compared as strings; on success `path` is a directory, the target holds the in-order concatenation of the chunks, no other file changes, and the counter equals the bytes written; on failure no file changes |
| `Fetch.WriteChunks` | ComfyDownloader.py:43-46 | the write loop leaves the open file holding exactly the chunks concatenated in order, and the progress counter equals the number of bytes written |
| `Fetch.DownloadFile` | ComfyDownloader.py:30-48 | the chunk-writing loop leaves the filesystem, the request sent and the byte counter exactly as `FetchSpec` says, and keeps the filesystem invariant |
| `Fetch.FetchOfBlocksStoresBody` | ComfyDownloader.py:41-46 | when the response arrives in 4096-byte blocks, a successful fetch leaves exactly the response body in the file and counts its length |
| `Fetch.FetchMakesFileExist` | ComfyDownloader.py:13-28 | after a successful fetch, the existence check is true for the same file name and directory |
| `DownloaderNode.SummaryList.constructor` | ComfyDownloader.py:90-91 | a missing summary starts as an empty list |
| `DownloaderNode.SummaryList.Append` | ComfyDownloader.py:98 | the list grows by exactly the new entry at its end; earlier entries are unchanged |
| `DownloaderNode.Run` | ComfyDownloader.py:85-97 | force with no regular file at the target raises and changes nothing; a fetch happens exactly when the file was deleted or was never there and the directory path is not empty, with the headers of the chosen test; with an empty directory path and no file the folder creation raises and nothing is sent; a successful fetch reports `downloaded <url> to <target>`, leaves the response in the target, adds the directory and changes no other file; without force and with the file present, nothing changes and `<target> present` is reported; whenever an entry is produced the file exists afterwards; when an exception is reported, the files are those left by the force-delete (if any); directories only ever gain the requested path |
| `DownloaderNode.Downloader` | ComfyDownloader.py:85-99 | the in-place node has exactly the effect of `Run` on the filesystem; on success the returned list is the given list (a fresh one when none was given) with exactly one entry appended; on an exception the list is untouched |
| `DownloaderNode.SecondRunReportsPresent` | ComfyDownloader.py:92-97 | without force, a second invocation after a successful one sends no request, leaves the filesystem unchanged and reports the file present |
| `DownloaderNode.ForceAlwaysFetches` | ComfyDownloader.py:87-94 | with force, the file present and a non-empty directory path, the file is always fetched again |
| `DownloaderNode.EmptyPathRaises` | ComfyDownloader.py:92-93 | without force and with no file, an empty directory path makes the folder creation raise FileNotFound: no request, no entry, nothing changed |
| `DownloaderNode.NodeAsWrittenLeaksToken` | ComfyDownloader.py:33-36 | the node as written sends `Authorization: Bearer secret` to `https://huggingface.co.evil.example/model.bin`; the corrected node sends no header there |
| `DownloaderNode.FirstRunDownloads` | ComfyDownloader.py:92-95 | without force, with no file there, a non-empty directory path and a writable target, the invocation reports the download and the target holds the server's bytes |
| `DownloaderNode.TwoRunsEntries` | ComfyDownloader.py:92-98 | two invocations for `http://x/a.bin` into `/tmp/out` produce `downloaded http://x/a.bin to /tmp/out/a.bin`, then `/tmp/out/a.bin present`, and the second leaves the filesystem as the first left it |
| `SummaryParser.Parse` | ComfyDownloader.py:122-128 | the rendering loop returns `Rendered(summary)`: a leading line break, then `- <entry>` and a line break for each entry in list order; an empty summary gives `"\n"` |
| `SummaryParser.RenderedExtends` | ComfyDownloader.py:122-128 | rendering a list with more entries appended gives the earlier rendering followed by the new entries' lines |
| `SummaryParser.RenderedLineCount` | ComfyDownloader.py:122-128 | N entries without line breaks render with exactly N + 1 line breaks |
| `SummaryParser.RenderedTwoEntries` | ComfyDownloader.py:123-126 | two entries `a`, `b` render as `"\n- " + a + "\n- " + b + "\n"` |
| `TokenLoader.ReadText` | ComfyDownloader.py:154-155 | reading a file in text mode succeeds exactly when it is a regular file whose bytes decode; otherwise it raises FileNotFound, IsADirectory or a decode error |
| `TokenLoader.Load` | ComfyDownloader.py:150-157 | the "environment variable" kind never fails and is absent exactly when the variable is unset; the "plain" kind succeeds exactly when the named file reads as text and returns its contents; every other kind, "path to file" included, returns the value unchanged |
| `TokenLoader.PathKindReturnsValue` | ComfyDownloader.py:150-157 | the "path to file" kind returns the value whatever the environment and the filesystem hold |

## Findings

| source | as written | input that shows it | evidently intended | confidence | as-written member | corrected member |
|---|---|---|---|---|---|---|
| ComfyDownloader.py:35 | the bearer token is attached when `url.startswith("https://huggingface.co")` | a token with url `https://huggingface.co.evil.example/model.bin`: the token is sent to the host `huggingface.co.evil.example` | the token goes only to the `https://huggingface.co` origin, as the warning's "domain not supported" on the other branch implies; the corrected test is stricter than a scheme-and-host comparison, since it also refuses spellings of the same origin with a port or user part, such as `https://huggingface.co:443/x` | medium, not executed | `Fetch.PrefixAuthHeadersLeakToken` | `Fetch.AuthHeaders` |

`Fetch.PrefixAuthHeaders` models the prefix test as written.
`Fetch.AuthHeaders` is the corrected test: the prefix must be followed by the
end of the url or by `/`, `?` or `#`. `Fetch.RequestHeaders` selects one of the
two. `Fetch.FetchSpec`, `Fetch.DownloadFile`, `DownloaderNode.Run` and
`DownloaderNode.Downloader` are stated for both. `DownloaderNode.NodeAsWrittenLeaksToken`
shows the leak at the level of the whole node.

## Left out

- The HTTP request itself: redirects, status codes, the `content-length` header, and network failures part-way through. The response is the chunk sequence the server function returns.
- `tqdm` progress-bar rendering; only the byte counter it is updated with is kept.
- `print` output and the "domain not supported" warning.
- The host registration tables (`INPUT_TYPES`, `RETURN_TYPES`, `RETURN_NAMES`, `FUNCTION`, `CATEGORY`, `NODE_CLASS_MAPPINGS`, `NODE_DISPLAY_NAME_MAPPINGS`). They are declarations with no behaviour.
- `IS_CHANGED`: it returns a random float and only serves the host's cache.
- `os.makedirs` intermediate directories: only the requested directory is recorded. Its failures other than the empty path, such as a regular file standing in a parent position, are not modelled.
- Fetch.FetchSpec: paths are compared as strings and never normalised. A file name of `""`, `"."` or `".."`, or one that makes the target end in a separator, names a directory to `open`, which then raises IsADirectoryError; the model stores a new file under that string instead. A directory path with a trailing separator (`"/tmp/out/"`) is not identified with a regular file `"/tmp/out"`, where `os.makedirs` would raise.
- DownloaderNode.Run: inherits the string comparison of paths from `Fetch.FetchSpec`, so for the names above it reports `downloaded <url> to <target>` where the node would raise; the same holds for `Fetch.DownloadFile` and `DownloaderNode.Downloader`.
- The parent of the written file is taken to be `path`. A file name containing `/`, or an absolute one, is not traced to its real parent directory.
- Text decoding (`encoding='utf-8'`, newline translation) is a parameter of `TokenLoader.Load`, not a model of UTF-8.
- Permissions, and races between the existence check and the create or write.
