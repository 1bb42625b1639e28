/**
 * `download_file`: the choice of request headers, and the loop that streams
 * the response body to disk chunk by chunk while a byte counter advances.
 */
module Fetch {
  import opened Wrappers
  import opened Os
  import opened Helpers

  type Chunk = Bytes

  /** `block_size` passed to `iter_content`. */
  const BlockSize: nat := 4096

  /** The only origin that is sent the bearer token. */
  const HuggingFace: string := "https://huggingface.co"
  const Https: string := "https://"
  const HuggingFaceHost: string := "huggingface.co"
  const Authorization: string := "Authorization"

  datatype HttpRequest = HttpRequest(url: string, headers: map<string, string>)

  /** The remote end: the chunks `iter_content` yields for a request. */
  type Server = HttpRequest -> seq<Chunk>

  predicate StartsWith(s: string, prefix: string) {
    |prefix| <= |s| && s[..|prefix|] == prefix
  }

  // ---------------------------------------------------------------------
  // The bytes written: the in-order concatenation of the chunks.

  function Concat(chunks: seq<Chunk>): (r: Bytes)
  {
    if chunks == [] then [] else Concat(chunks[..|chunks| - 1]) + chunks[|chunks| - 1]
  }

  lemma {:induction false} ConcatCons(c: Chunk, chunks: seq<Chunk>)
    ensures Concat([c] + chunks) == c + Concat(chunks)
    decreases |chunks|
  {
    if chunks != [] {
      var init := chunks[..|chunks| - 1];
      assert ([c] + chunks)[..|chunks|] == [c] + init;
      ConcatCons(c, init);
    }
  }

  /** The blocks `iter_content(BlockSize)` cuts a body of bytes into. */
  function Blocks(body: Bytes, n: nat): (r: seq<Chunk>)
    requires n > 0
    ensures forall i :: 0 <= i < |r| ==> 0 < |r[i]| <= n
    decreases |body|
  {
    if body == [] then []
    else if |body| <= n then [body]
    else [body[..n]] + Blocks(body[n..], n)
  }

  /** However the body is cut into blocks, the blocks put back together are the body. */
  lemma {:induction false} BlocksConcat(body: Bytes, n: nat)
    requires n > 0
    ensures Concat(Blocks(body, n)) == body
    decreases |body|
  {
    if body == [] {
    } else if |body| <= n {
      assert Concat([body]) == Concat([]) + body;
    } else {
      BlocksConcat(body[n..], n);
      ConcatCons(body[..n], Blocks(body[n..], n));
      assert body[..n] + body[n..] == body;
    }
  }

  // ---------------------------------------------------------------------
  // Header choice.

  /** The header map as the source builds it: a literal prefix test on the url. */
  function PrefixAuthHeaders(url: string, token: Option<string>): (h: map<string, string>)
    ensures Authorization in h <==> token.Some? && StartsWith(url, HuggingFace)
    ensures h.Keys <= {Authorization}
    ensures Authorization in h ==> h[Authorization] == "Bearer " + token.value
  {
    if token.Some? && StartsWith(url, HuggingFace) then map[Authorization := "Bearer " + token.value]
    else map[]
  }

  predicate IsDelimiter(c: char) {
    c == '/' || c == '?' || c == '#'
  }

  /** The authority of a url once its scheme is stripped: everything up to the first '/', '?' or '#'. */
  function Authority(rest: string): (a: string)
    ensures StartsWith(rest, a)
    ensures forall i :: 0 <= i < |a| ==> !IsDelimiter(a[i])
    ensures |a| < |rest| ==> IsDelimiter(rest[|a|])
  {
    if rest == [] || IsDelimiter(rest[0]) then [] else [rest[0]] + Authority(rest[1..])
  }

  /** The url is an https url whose authority is exactly the model-hosting host. */
  predicate AllowedOrigin(url: string) {
    StartsWith(url, Https) && Authority(url[|Https|..]) == HuggingFaceHost
  }

  /** The origin test the fetch uses: the prefix followed by the end of the url or a delimiter. */
  predicate OriginMatches(url: string) {
    StartsWith(url, HuggingFace) && (|url| == |HuggingFace| || IsDelimiter(url[|HuggingFace|]))
  }

  lemma OriginMatchesIsAllowedOrigin(url: string)
    ensures OriginMatches(url) <==> AllowedOrigin(url)
  {
    assert HuggingFace == Https + HuggingFaceHost;
    assert forall i :: 0 <= i < |HuggingFaceHost| ==> !IsDelimiter(HuggingFaceHost[i]);
    if OriginMatches(url) {
      assert url[..|Https|] == HuggingFace[..|Https|] == Https;
      var rest := url[|Https|..];
      assert rest[..|HuggingFaceHost|] == url[|Https|..|HuggingFace|] == HuggingFace[|Https|..] == HuggingFaceHost;
      assert |HuggingFaceHost| < |rest| ==> rest[|HuggingFaceHost|] == url[|HuggingFace|];
      AuthorityOf(rest, HuggingFaceHost);
    }
    if AllowedOrigin(url) {
      var rest := url[|Https|..];
      assert rest[..|HuggingFaceHost|] == HuggingFaceHost;
      assert url[..|HuggingFace|] == url[..|Https|] + rest[..|HuggingFaceHost|];
      assert |HuggingFaceHost| < |rest| ==> rest[|HuggingFaceHost|] == url[|HuggingFace|];
    }
  }

  /** A prefix free of delimiters that ends the string or stops at a delimiter is the authority. */
  lemma {:induction false} AuthorityOf(rest: string, a: string)
    requires StartsWith(rest, a)
    requires forall i :: 0 <= i < |a| ==> !IsDelimiter(a[i])
    requires |a| < |rest| ==> IsDelimiter(rest[|a|])
    ensures Authority(rest) == a
    decreases |a|
  {
    if a != [] {
      assert rest[0] == a[0];
      AuthorityOf(rest[1..], a[1..]);
      assert a == [a[0]] + a[1..];
    }
  }

  /**
   * The headers the fetch sends: a bearer token exactly when a token is given
   * and the url's origin is the allow-listed one; otherwise none.
   */
  function AuthHeaders(url: string, token: Option<string>): (h: map<string, string>)
    ensures Authorization in h <==> token.Some? && AllowedOrigin(url)
    ensures h.Keys <= {Authorization}
    ensures Authorization in h ==> h[Authorization] == "Bearer " + token.value
  {
    OriginMatchesIsAllowedOrigin(url);
    if token.Some? && OriginMatches(url) then map[Authorization := "Bearer " + token.value]
    else map[]
  }

  /** The two choices agree everywhere except on urls whose host merely begins with the allowed one. */
  lemma AuthHeadersRefinePrefix(url: string, token: Option<string>)
    ensures Authorization in AuthHeaders(url, token) ==> AuthHeaders(url, token) == PrefixAuthHeaders(url, token)
    ensures AuthHeaders(url, token) != PrefixAuthHeaders(url, token) ==>
              token.Some? && StartsWith(url, HuggingFace) && !AllowedOrigin(url)
  {
    OriginMatchesIsAllowedOrigin(url);
  }

  /** The prefix test hands the token to another host. */
  lemma PrefixAuthHeadersLeakToken()
    ensures var url := "https://huggingface.co.evil.example/model.bin";
            Authorization in PrefixAuthHeaders(url, Some("secret")) && !AllowedOrigin(url)
  {
    var url := "https://huggingface.co.evil.example/model.bin";
    assert StartsWith(url, HuggingFace);
    var rest := url[|Https|..];
    assert rest[|HuggingFaceHost|] == '.';
    assert Authority(rest) != HuggingFaceHost;
  }

  /** Which test chooses the headers: the prefix test as the source writes it, or the corrected origin test. */
  datatype OriginTest = PrefixTest | OriginBoundary

  /**
   * The headers a fetch sends under either test. Both send at most the
   * bearer header, and only to urls starting with the allow-listed prefix.
   */
  function RequestHeaders(test: OriginTest, url: string, token: Option<string>): (h: map<string, string>)
    ensures h.Keys <= {Authorization}
    ensures Authorization in h ==> token.Some? && StartsWith(url, HuggingFace) && h[Authorization] == "Bearer " + token.value
    ensures test == PrefixTest ==> h == PrefixAuthHeaders(url, token)
    ensures test == OriginBoundary ==> h == AuthHeaders(url, token)
  {
    AuthHeadersRefinePrefix(url, token);
    match test
    case PrefixTest => PrefixAuthHeaders(url, token)
    case OriginBoundary => AuthHeaders(url, token)
  }

  // ---------------------------------------------------------------------
  // The fetch.

  /** What a call of `download_file` leaves behind: the filesystem, the request issued if any, and the byte count or the error raised. */
  datatype Fetched = Fetched(fs: Fs, sent: Option<HttpRequest>, written: Result<nat, IoError>)

  /**
   * `download_file(url, file_name, path, token)`: ensure the directory, issue
   * the request, open the target for writing and write every chunk.
   */
  function FetchSpec(w: Fs, url: string, fileName: Path, path: Path, token: Option<string>,
                     test: OriginTest, server: Server): (r: Fetched)
    // `os.makedirs("")` raises before any request is made
    ensures path == "" ==> r == Fetched(w, None, Failure(FileNotFound(path)))
    // otherwise the request carries the chosen headers, and the directory is created when nothing is there
    ensures path != "" ==> r.sent == Some(HttpRequest(url, RequestHeaders(test, url, token)))
    ensures path != "" ==> r.fs.dirs == if w.Exists(path) then w.dirs else w.dirs + {path}
    // the write fails only for a file standing where the directory should be, or a directory where the file should be
    ensures r.written.Success? <==> path != "" && path !in w.files && Join(path, fileName) !in w.dirs + {path}
    ensures r.written.Failure? && path != "" ==>
              && r.fs.files == w.files
              && r.written.error == if path in w.files then NotADirectory(Join(path, fileName)) else IsADirectory(Join(path, fileName))
    // otherwise the file holds the chunks in order, no other file changes, and the counter is its length
    ensures r.written.Success? ==>
              && path in r.fs.dirs
              && r.sent.Some?
              && r.fs.files == w.files[Join(path, fileName) := Concat(server(r.sent.value))]
              && r.written.value == |r.fs.files[Join(path, fileName)]|
    ensures w.Valid() ==> r.fs.Valid()
  {
    match EnsureFolder(w, path)
    case Failure(e) => Fetched(w, None, Failure(e))
    case Success(w1) =>
      var sent := HttpRequest(url, RequestHeaders(test, url, token));
      var full := Join(path, fileName);
      if path in w1.files then Fetched(w1, Some(sent), Failure(NotADirectory(full)))
      else if full in w1.dirs then Fetched(w1, Some(sent), Failure(IsADirectory(full)))
      else
        var body := Concat(server(sent));
        Fetched(w1.(files := w1.files[full := body]), Some(sent), Success(|body|))
  }

  /**
   * The `iter_content` loop: each chunk is written after the bytes already in
   * the open file, and the progress counter advances by its length.
   */
  method WriteChunks(chunks: seq<Chunk>) returns (content: Bytes, progress: nat)
    ensures content == Concat(chunks)
    ensures progress == |content|
  {
    content, progress := [], 0;
    for i := 0 to |chunks|
      invariant content == Concat(chunks[..i])
      invariant progress == |content|
    {
      assert chunks[..i + 1][..i] == chunks[..i];
      progress := progress + |chunks[i]|;
      content := content + chunks[i];
    }
    assert chunks[..|chunks|] == chunks;
  }

  method DownloadFile(fs: FileSystem, url: string, fileName: Path, path: Path, token: Option<string>,
                      test: OriginTest, server: Server)
    returns (sent: Option<HttpRequest>, written: Result<nat, IoError>)
    requires fs.Valid()
    modifies fs
    ensures fs.Valid()
    ensures Fetched(fs.State(), sent, written) == FetchSpec(old(fs.State()), url, fileName, path, token, test, server)
  {
    ghost var spec := FetchSpec(fs.State(), url, fileName, path, token, test, server);
    var err := CreateFolderIfNotExists(fs, path);
    if err.Some? {
      return None, Failure(err.value);
    }
    ghost var w1 := fs.State();
    var req := HttpRequest(url, RequestHeaders(test, url, token));
    sent := Some(req);
    var chunks := server(req);
    var full := Join(path, fileName);
    if path in fs.files {
      assert spec == Fetched(w1, sent, Failure(NotADirectory(full)));
      return sent, Failure(NotADirectory(full));
    }
    if full in fs.dirs {
      assert spec == Fetched(w1, sent, Failure(IsADirectory(full)));
      return sent, Failure(IsADirectory(full));
    }
    // opening the file in 'wb' mode truncates it; the chunks are then written in order
    fs.files := fs.files[full := []];
    var content, progress := WriteChunks(chunks);
    fs.files := fs.files[full := content];
    assert spec == Fetched(w1.(files := w1.files[full := Concat(chunks)]), sent, Success(progress));
    written := Success(progress);
  }

  /** After a successful fetch the existence check holds for the same file name and directory. */
  lemma FetchMakesFileExist(w: Fs, url: string, fileName: Path, path: Path, token: Option<string>,
                            test: OriginTest, server: Server)
    requires FetchSpec(w, url, fileName, path, token, test, server).written.Success?
    ensures IsExist(FetchSpec(w, url, fileName, path, token, test, server).fs, fileName, path)
  {
  }

  /** A server whose body arrives in `BlockSize` blocks leaves exactly that body in the file. */
  lemma FetchOfBlocksStoresBody(w: Fs, url: string, fileName: Path, path: Path, token: Option<string>,
                                test: OriginTest, server: Server, body: Bytes)
    requires server(HttpRequest(url, RequestHeaders(test, url, token))) == Blocks(body, BlockSize)
    requires FetchSpec(w, url, fileName, path, token, test, server).written.Success?
    ensures var r := FetchSpec(w, url, fileName, path, token, test, server);
            r.fs.files[Join(path, fileName)] == body && r.written.value == |body|
  {
    BlocksConcat(body, BlockSize);
  }
}
