/**
 * The `Downloader` node: optional force-delete, the existence check, the
 * fetch or the "present" report, and one entry appended to the summary list
 * the host threads from node to node.
 */
module DownloaderNode {
  import opened Wrappers
  import opened Os
  import opened Helpers
  import opened Fetch

  /** The `DOWNLOAD_SUMMARY` value: a list object appended to in place. */
  class SummaryList {
    var items: seq<string>

    constructor ()
      ensures items == []
    {
      items := [];
    }

    /** `list.append` */
    method Append(e: string)
      modifies this
      ensures items == old(items) + [e]
    {
      items := items + [e];
    }
  }

  /** The inputs of one invocation of the node. */
  datatype Request = Request(url: string, path: Path, fileName: Path, force: bool, token: Option<string>)

  function Target(q: Request): Path {
    Join(q.path, q.fileName)
  }

  function DownloadedEntry(url: string, full: Path): string {
    "downloaded " + url + " to " + full
  }

  function PresentEntry(full: Path): string {
    full + " present"
  }

  /** What one invocation leaves behind: the filesystem, the request issued if any, and the summary entry or the error raised. */
  datatype NodeEffect = NodeEffect(fs: Fs, sent: Option<HttpRequest>, entry: Result<string, IoError>)

  /**
   * `Downloader.downloader` on the filesystem `w`. `PrefixTest` gives the
   * node as written; `OriginBoundary` the node with the corrected header choice.
   */
  function Run(w: Fs, q: Request, test: OriginTest, server: Server): (r: NodeEffect)
    // the force-delete runs first and raises unless a regular file is there; nothing else happens then
    ensures q.force && !w.IsFile(Target(q)) ==>
              r == NodeEffect(w, None, Failure(if Target(q) in w.dirs then IsADirectory(Target(q)) else FileNotFound(Target(q))))
    // a fetch happens exactly when the file was deleted or was never there, and the directory can be created
    ensures r.sent.Some? <==> q.force == w.IsFile(Target(q)) && q.path != ""
    ensures q.force == w.IsFile(Target(q)) && q.path == "" ==> r.sent == None && r.entry == Failure(FileNotFound(""))
    ensures r.sent.Some? ==> r.sent.value == HttpRequest(q.url, RequestHeaders(test, q.url, q.token))
    // a successful fetch reports the download and leaves the response in the file, and changes nothing else
    ensures r.sent.Some? && r.entry.Success? ==>
              && r.entry.value == DownloadedEntry(q.url, Target(q))
              && r.fs.files == w.files[Target(q) := Concat(server(r.sent.value))]
              && r.fs.dirs == w.dirs + {q.path}
    // otherwise the file is reported present and nothing is written
    ensures !q.force && w.IsFile(Target(q)) ==> r == NodeEffect(w, None, Success(PresentEntry(Target(q))))
    // whenever an entry is produced, the file is there afterwards
    ensures r.entry.Success? ==> r.fs.IsFile(Target(q))
    // an exception keeps what happened before it: the force-delete, and a created directory
    ensures r.entry.Failure? ==>
              r.fs.files == if q.force && w.IsFile(Target(q)) then w.files - {Target(q)} else w.files
    ensures w.dirs <= r.fs.dirs <= w.dirs + {q.path}
    ensures w.Valid() ==> r.fs.Valid()
  {
    var full := Target(q);
    var deleted := if q.force then RemoveFile(w, full) else Success(w);
    if deleted.Failure? then NodeEffect(w, None, Failure(deleted.error))
    else
      var w1 := deleted.value;
      if !IsExist(w1, q.fileName, q.path) then
        match EnsureFolder(w1, q.path)
        case Failure(e) => NodeEffect(w1, None, Failure(e))
        case Success(w2) =>
          var f := FetchSpec(w2, q.url, q.fileName, q.path, q.token, test, server);
          NodeEffect(f.fs, f.sent, if f.written.Success? then Success(DownloadedEntry(q.url, full)) else Failure(f.written.error))
      else
        NodeEffect(w1, None, Success(PresentEntry(full)))
  }

  /**
   * `downloader(url, path, file_name, force, token, summary)`. A missing
   * summary starts a new list; on success the returned list is the given one
   * (or the new one) with exactly one entry appended. An exception leaves the
   * list as it was.
   */
  method Downloader(fs: FileSystem, url: string, path: Path, fileName: Path, force: bool,
                    token: Option<string>, summary: SummaryList?, test: OriginTest, server: Server)
    returns (out: Result<SummaryList, IoError>, sent: Option<HttpRequest>)
    requires fs.Valid()
    modifies fs, summary
    ensures fs.Valid()
    ensures var e := Run(old(fs.State()), Request(url, path, fileName, force, token), test, server);
            && fs.State() == e.fs
            && sent == e.sent
            && (e.entry.Failure? ==> out == Failure(e.entry.error))
            && (e.entry.Success? ==> out.Success? && out.value.items == (if summary == null then [] else old(summary.items)) + [e.entry.value])
    ensures out.Success? && summary != null ==> out.value == summary
    ensures out.Success? && summary == null ==> fresh(out.value)
    ensures out.Failure? && summary != null ==> summary.items == old(summary.items)
  {
    sent := None;
    var full := Join(path, fileName);
    if force {
      var err := Delete(fs, fileName, path);
      if err.Some? {
        return Failure(err.value), None;
      }
    }
    var list := summary;
    if list == null {
      list := new SummaryList();
    }
    var result: string;
    if !IsExist(fs.State(), fileName, path) {
      var err := CreateFolderIfNotExists(fs, path);
      if err.Some? {
        return Failure(err.value), None;
      }
      var written;
      sent, written := DownloadFile(fs, url, fileName, path, token, test, server);
      if written.Failure? {
        return Failure(written.error), sent;
      }
      result := DownloadedEntry(url, full);
    } else {
      result := PresentEntry(full);
    }
    list.Append(result);
    out := Success(list);
  }

  /** Without force, a second invocation after a successful one finds the file, writes nothing and reports it present. */
  lemma SecondRunReportsPresent(w: Fs, q: Request, test: OriginTest, server: Server, server2: Server)
    requires !q.force
    requires Run(w, q, test, server).entry.Success?
    ensures var w' := Run(w, q, test, server).fs;
            Run(w', q, test, server2) == NodeEffect(w', None, Success(PresentEntry(Target(q))))
  {
  }

  /** With force and a file present, the file is always fetched again, unless the directory is the empty path. */
  lemma ForceAlwaysFetches(w: Fs, q: Request, test: OriginTest, server: Server)
    requires q.force && w.IsFile(Target(q)) && q.path != ""
    ensures Run(w, q, test, server).sent == Some(HttpRequest(q.url, RequestHeaders(test, q.url, q.token)))
  {
  }

  /** An empty directory path makes the folder creation raise once the file is missing: no request, no entry. */
  lemma EmptyPathRaises(w: Fs, q: Request, test: OriginTest, server: Server)
    requires q.path == "" && !q.force && !w.IsFile(Target(q))
    ensures Run(w, q, test, server) == NodeEffect(w, None, Failure(FileNotFound("")))
  {
  }

  /** Without force, with no file there and a writable target, the invocation downloads. */
  lemma FirstRunDownloads(w: Fs, q: Request, test: OriginTest, server: Server)
    requires !q.force && !w.IsFile(Target(q))
    requires q.path != "" && q.path !in w.files && Target(q) != q.path && Target(q) !in w.dirs
    ensures Run(w, q, test, server).entry == Success(DownloadedEntry(q.url, Target(q)))
    ensures Run(w, q, test, server).fs.files[Target(q)] == Concat(server(HttpRequest(q.url, RequestHeaders(test, q.url, q.token))))
  {
    var w2 := EnsureFolder(w, q.path).value;
    var f := FetchSpec(w2, q.url, q.fileName, q.path, q.token, test, server);
    assert f.written.Success?;
  }

  /**
   * The node as written sends the token to a host that merely begins with the
   * allowed one; the corrected node does not.
   */
  lemma NodeAsWrittenLeaksToken(w: Fs, q: Request, server: Server)
    requires q.url == "https://huggingface.co.evil.example/model.bin" && q.token == Some("secret")
    requires !q.force && !w.IsFile(Target(q)) && q.path != ""
    ensures Run(w, q, PrefixTest, server).sent.Some?
    ensures Run(w, q, PrefixTest, server).sent.value.headers == map[Authorization := "Bearer secret"]
    ensures Run(w, q, OriginBoundary, server).sent.Some?
    ensures Run(w, q, OriginBoundary, server).sent.value.headers == map[]
  {
    PrefixAuthHeadersLeakToken();
    assert StartsWith(q.url, HuggingFace);
    assert "Bearer " + "secret" == "Bearer secret";
  }

  /**
   * Two invocations with the same inputs: the first downloads, the second
   * finds the file and leaves the filesystem as the first left it.
   */
  lemma TwoRunsEntries(w: Fs, test: OriginTest, server: Server)
    requires "/tmp/out" !in w.files && "/tmp/out/a.bin" !in w.files && "/tmp/out/a.bin" !in w.dirs
    ensures var q := Request("http://x/a.bin", "/tmp/out", "a.bin", false, None);
            var first := Run(w, q, test, server);
            var second := Run(first.fs, q, test, server);
            && first.entry == Success("downloaded http://x/a.bin to /tmp/out/a.bin")
            && second.entry == Success("/tmp/out/a.bin present")
            && second.fs == first.fs
  {
    var q := Request("http://x/a.bin", "/tmp/out", "a.bin", false, None);
    ExampleTarget();
    ExampleDownloadedEntry();
    ExamplePresentEntry();
    FirstRunDownloads(w, q, test, server);
    SecondRunReportsPresent(w, q, test, server, server);
  }

  lemma ExampleTarget()
    ensures Join("/tmp/out", "a.bin") == "/tmp/out/a.bin"
  {
    assert !IsAbsolute("a.bin");
    assert "/tmp/out"[7] == 't';
  }

  lemma ExampleDownloadedEntry()
    ensures DownloadedEntry("http://x/a.bin", "/tmp/out/a.bin") == "downloaded http://x/a.bin to /tmp/out/a.bin"
  {
  }

  lemma ExamplePresentEntry()
    ensures PresentEntry("/tmp/out/a.bin") == "/tmp/out/a.bin present"
  {
  }
}
