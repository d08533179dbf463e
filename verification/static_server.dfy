/** The static file server of `server.js`: every request gets the CORS
    headers; `OPTIONS` is answered at once; any other method has its URL
    rewritten to a path under `/public`, its content type looked up from
    the path's extension, and the file read, with a fall-back to the entry
    document when the file does not exist.

    The file system is a map from the resolved path (relative to the
    server's directory) to what reading it yields; a path that is not in
    the map reads as the error code `ENOENT`. */
module StaticServer {
  import opened Wrappers
  import opened Bytes
  import opened Text

  const IndexPath: string := "/public/index.html"
  const DefaultContentType: string := "application/octet-stream"

  /** The extension table of the server. */
  const MimeTypes: map<string, string> := map[
    ".html" := "text/html",
    ".js" := "text/javascript",
    ".css" := "text/css",
    ".json" := "application/json",
    ".png" := "image/png",
    ".jpg" := "image/jpg",
    ".gif" := "image/gif",
    ".svg" := "image/svg+xml",
    ".wav" := "audio/wav",
    ".mp4" := "video/mp4",
    ".woff" := "application/font-woff",
    ".ttf" := "application/font-ttf",
    ".eot" := "application/vnd.ms-fontobject",
    ".otf" := "application/font-otf",
    ".wasm" := "application/wasm"
  ]

  /** Headers set on every response, before anything else happens. */
  const CorsHeaders: map<string, string> := map[
    "Access-Control-Allow-Origin" := "*",
    "Access-Control-Allow-Methods" := "GET, POST, PUT, DELETE, OPTIONS",
    "Access-Control-Allow-Headers" := "Content-Type"
  ]

  datatype Request = Request(verb: string, url: string)

  /** What one `fs.readFile` call delivers: the file's bytes or an error code. */
  datatype ReadOutcome = Contents(bytes: seq<byte>) | ReadError(code: string)

  type FileSystem = map<string, ReadOutcome>

  datatype Body = Empty | Data(bytes: seq<byte>) | Message(text: string)

  datatype Response = Response(status: int, headers: map<string, string>, body: Body)

  function ReadFile(fs: FileSystem, path: string): ReadOutcome {
    if path in fs then fs[path] else ReadError("ENOENT")
  }

  // ----- path resolution -----

  /** The root URL names the entry document. */
  function RewriteRoot(url: string): string {
    if url == "/" then IndexPath else url
  }

  /** Client-side routes: a path with no dot anywhere in it becomes the
      entry document. */
  function RewriteRoute(path: string): string {
    if '.' !in path && path != "/" then IndexPath else path
  }

  /** A rooted path outside `/public/` is moved under it. */
  function AddPublicPrefix(path: string): string {
    if !StartsWith(path, "/public/") && StartsWith(path, "/") then "/public" + path else path
  }

  /** The path the handler reads for a request URL. It is the entry
      document or ends with the URL itself; it always holds a dot; and a
      rooted URL always resolves under `/public/`. */
  function ResolvePath(url: string): (r: string)
    ensures r == IndexPath || (StartsWith(url, "/") && r == "/public" + url) || r == url
    ensures r != IndexPath ==> '.' in url
    ensures '.' in r
    ensures StartsWith(url, "/") ==> StartsWith(r, "/public/")
  {
    assert IndexPath[13] == '.';
    PrefixKeepsDot(url);
    AddPublicPrefix(RewriteRoute(RewriteRoot(url)))
  }

  lemma PrefixKeepsDot(url: string)
    ensures '.' in url ==> '.' in "/public" + url
    ensures StartsWith(url, "/") ==> StartsWith("/public" + url, "/public/")
  {
    if '.' in url {
      var k :| 0 <= k < |url| && url[k] == '.';
      assert ("/public" + url)[k + 7] == '.';
    }
  }

  // ----- extensions and content types -----

  /** The path with its trailing slashes removed. */
  function StripTrailingSlashes(p: string): (r: string)
    ensures r <= p
    ensures |r| > 0 ==> r[|r| - 1] != '/'
    ensures forall i :: |r| <= i < |p| ==> p[i] == '/'
  {
    if |p| > 0 && p[|p| - 1] == '/' then StripTrailingSlashes(p[..|p| - 1]) else p
  }

  /** The last component of a path: what follows its last slash. */
  function Basename(p: string): (r: string)
    ensures '/' !in r
    ensures |r| <= |p| && r == p[|p| - |r|..]
    ensures |r| < |p| ==> p[|p| - |r| - 1] == '/'
  {
    match LastIndexOf(p, '/')
    case None => p
    case Some(k) => p[k + 1..]
  }

  /** Node's `path.extname`: from the last dot of the last component
      (trailing slashes ignored) to its end, and empty when that component
      has no dot, starts with its only leading dot run's last dot (a dot
      file such as `.env`), or is `..`. */
  function Extname(p: string): (r: string)
    ensures r == "" || (r[0] == '.' && '/' !in r && '.' !in r[1..])
    ensures var base := LastPart(p); |r| <= |base| && r == base[|base| - |r|..]
    ensures r == "" <==> NoExtension(LastPart(p))
  {
    ExtensionOf(LastPart(p))
  }

  /** The component `path.extname` looks at: the last one, trailing
      slashes ignored. */
  function LastPart(p: string): (r: string)
    ensures '/' !in r
  {
    Basename(StripTrailingSlashes(p))
  }

  /** A component without an extension: it has no dot, its only dot is its
      first character (a dot file such as `.env`), or it is `..`. */
  predicate NoExtension(base: string) {
    '.' !in base || (base[0] == '.' && '.' !in base[1..]) || base == ".."
  }

  /** The extension of one path component. */
  function ExtensionOf(base: string): (r: string)
    requires '/' !in base
    ensures r == "" || (r[0] == '.' && '/' !in r && '.' !in r[1..])
    ensures |r| <= |base| && r == base[|base| - |r|..]
    ensures r == "" <==> NoExtension(base)
  {
    match LastIndexOf(base, '.')
    case None => ""
    case Some(k) =>
      if k == 0 || base == ".." then ""
      else
        AbsentFromSlice(base, '/', k, |base|);
        base[k..]
  }

  /** `table[extname] || 'application/octet-stream'` for a resolved path:
      never empty, a value of the table or the generic binary type, and the
      latter for a last component without an extension (unless the table
      has an entry for the empty extension). */
  function ContentTypeIn(table: map<string, string>, path: string): (r: string)
    ensures r != ""
    ensures r == DefaultContentType || r in table.Values
    ensures NoExtension(LastPart(path)) && "" !in table ==> r == DefaultContentType
    ensures Extname(path) !in table ==> r == DefaultContentType
    ensures Extname(path) in table && table[Extname(path)] != "" ==> r == table[Extname(path)]
  {
    var ext := Extname(path);
    if ext in table && table[ext] != "" then table[ext] else DefaultContentType
  }

  /** The server's content type for a resolved path: the generic binary
      type exactly when the path's extension is not in the table. */
  function ContentType(path: string): (r: string)
    ensures r == DefaultContentType <==> Extname(path) !in MimeTypes
    ensures r in MimeTypes.Values || r == DefaultContentType
  {
    TableHasNoDefault();
    ContentTypeIn(MimeTypes, path)
  }

  /** Every entry of the server's table is non-empty and none of them is
      the generic binary type. */
  lemma TableHasNoDefault()
    ensures forall ext :: ext in MimeTypes ==> MimeTypes[ext] != "" && MimeTypes[ext] != DefaultContentType
  {
  }

  /** An extension is recovered from a file name built with it. */
  lemma ExtnameOfFileName(dir: string, stem: string, ext: string)
    requires '/' !in stem && '/' !in ext && '.' !in ext
    requires |stem| > 0 && |ext| > 0
    ensures Extname(dir + "/" + stem + "." + ext) == "." + ext
  {
    var name := stem + "." + ext;
    assert dir + "/" + stem + "." + ext == dir + "/" + name;
    NoSlashInName(stem, ext);
    BasenameOfJoin(dir, name);
    LastDotOfName(stem, ext);
    ExtnameFromLastDot(dir + "/" + name, name, |stem|);
  }

  /** In `stem.ext` with a dot-free extension, the last dot is the one
      before the extension. */
  lemma LastDotOfName(stem: string, ext: string)
    requires '.' !in ext && |stem| > 0 && |ext| > 0
    ensures var name := stem + "." + ext;
      LastIndexOf(name, '.') == Some(|stem|) && name[|stem|..] == "." + ext && name != ".."
  {
    var name := stem + "." + ext;
    assert name == stem + ("." + ext);
    assert name[|stem|..] == "." + ext;
    assert name[|stem| + 1..] == ext;
    assert |name| > 2;
    LastIndexOfUnique(name, '.', |stem|);
  }

  lemma ExtnameFromLastDot(p: string, name: string, k: nat)
    requires Basename(StripTrailingSlashes(p)) == name
    requires LastIndexOf(name, '.') == Some(k) && k > 0 && name != ".."
    ensures Extname(p) == name[k..]
  {
  }

  lemma NoSlashInName(stem: string, ext: string)
    requires '/' !in stem && '/' !in ext
    ensures '/' !in stem + "." + ext
  {
  }

  /** The last component of `dir/name` is `name` when `name` is a
      non-empty component. */
  lemma BasenameOfJoin(dir: string, name: string)
    requires '/' !in name && |name| > 0
    ensures StripTrailingSlashes(dir + "/" + name) == dir + "/" + name
    ensures Basename(dir + "/" + name) == name
  {
    var p := dir + "/" + name;
    assert p[|p| - 1] == name[|name| - 1];
    assert p[|dir|] == '/';
    assert p[|dir| + 1..] == name;
    LastIndexOfUnique(p, '/', |dir|);
  }

  /** The content type of a file name whose extension is in the table. */
  lemma ContentTypeOfFileName(table: map<string, string>, dir: string, stem: string, ext: string)
    requires '/' !in stem && '/' !in ext && '.' !in ext
    requires |stem| > 0 && |ext| > 0 && "." + ext in table && table["." + ext] != ""
    ensures ContentTypeIn(table, dir + "/" + stem + "." + ext) == table["." + ext]
  {
    ExtnameOfFileName(dir, stem, ext);
  }

  /** A last component without an extension (no dot, a dot file, `..`)
      gets the generic binary type, whatever the directory. */
  lemma ContentTypeOfBareName(table: map<string, string>, dir: string, base: string)
    requires '/' !in base && |base| > 0 && NoExtension(base) && "" !in table
    ensures ContentTypeIn(table, dir + "/" + base) == DefaultContentType
  {
    BasenameOfJoin(dir, base);
  }

  // ----- the handler -----

  /** The response to one request. Every response carries the CORS headers;
      `OPTIONS` is answered with 200 and no body; every other method is
      served from the file system with status 200, 404 or 500. */
  function Handle(req: Request, fs: FileSystem): (r: Response)
    ensures r.status in {200, 404, 500}
    ensures CorsHeaders.Keys <= r.headers.Keys
    ensures forall h :: h in CorsHeaders ==> r.headers[h] == CorsHeaders[h]
    ensures req.verb == "OPTIONS" ==> r == Response(200, CorsHeaders, Empty)
    ensures r.status != 200 ==> r.body.Message? && r.headers == CorsHeaders
  {
    if req.verb == "OPTIONS" then Response(200, CorsHeaders, Empty)
    else
      var path := ResolvePath(req.url);
      Answer(ReadFile(fs, path), ReadFile(fs, IndexPath), ContentType(path))
  }

  /** The status ladder after the read of the resolved path: its bytes
      under its content type, else (for `ENOENT`) the entry document as
      HTML or 404, else 500 naming the error code. */
  function Answer(read: ReadOutcome, index: ReadOutcome, contentType: string): (r: Response)
    ensures r.status in {200, 404, 500}
    ensures CorsHeaders.Keys <= r.headers.Keys
    ensures forall h :: h in CorsHeaders ==> r.headers[h] == CorsHeaders[h]
    ensures r.status != 200 ==> r.body.Message? && r.headers == CorsHeaders
  {
    match read
    case Contents(bytes) => Response(200, WithContentType(contentType), Data(bytes))
    case ReadError(code) =>
      if code == "ENOENT" then
        match index
        case Contents(page) => Response(200, WithContentType("text/html"), Data(page))
        case ReadError(_) => Response(404, CorsHeaders, Message("File not found"))
      else
        Response(500, CorsHeaders, Message("Server Error: " + code))
  }

  /** The CORS headers plus a `Content-Type`. */
  function WithContentType(contentType: string): (h: map<string, string>)
    ensures h.Keys == CorsHeaders.Keys + {"Content-Type"}
    ensures forall k :: k in CorsHeaders ==> h[k] == CorsHeaders[k]
    ensures "Content-Type" in h && h["Content-Type"] == contentType
  {
    CorsHeaders["Content-Type" := contentType]
  }

  // ----- properties -----

  /** A pre-flight request never looks at the file system. */
  lemma OptionsIgnoresFiles(url: string, fs1: FileSystem, fs2: FileSystem)
    ensures Handle(Request("OPTIONS", url), fs1) == Handle(Request("OPTIONS", url), fs2)
    ensures Handle(Request("OPTIONS", url), fs1).body == Empty
  {
  }

  /** The root URL names the entry document. */
  lemma RootIsIndex()
    ensures ResolvePath("/") == IndexPath
  {
  }

  /** A URL with no dot anywhere, wherever it would be (`/a.b/c` has one),
      resolves to the entry document. */
  lemma DotlessIsIndex(url: string)
    requires '.' !in url
    ensures ResolvePath(url) == IndexPath
  {
  }

  /** Prefixing: a URL already under `/public/` and one that is not rooted
      are kept as they are; any other rooted URL is moved under `/public`. */
  lemma PrefixRules(url: string)
    requires '.' in url
    ensures StartsWith(url, "/public/") ==> ResolvePath(url) == url
    ensures !StartsWith(url, "/") ==> ResolvePath(url) == url
    ensures StartsWith(url, "/") && !StartsWith(url, "/public/") ==> ResolvePath(url) == "/public" + url
  {
  }

  /** Resolving a resolved path changes nothing. */
  lemma {:induction false} ResolveIdempotent(url: string)
    ensures ResolvePath(ResolvePath(url)) == ResolvePath(url)
  {
    var r := ResolvePath(url);
    if r == IndexPath {
      assert StartsWith(IndexPath, "/public/");
    } else if StartsWith(url, "/") && r == "/public" + url {
      assert StartsWith(r, "/public/");
    }
  }

  /** A rooted script URL is resolved under `/public`. */
  lemma ResolveScript(url: string)
    requires url == "/app.js"
    ensures ResolvePath(url) == "/public/app.js"
  {
    assert url[4] == '.';
    assert !StartsWith(url, "/public/") by { assert url[1] != "/public/"[1]; }
    PrefixRules(url);
  }

  /** Scripts are served as `text/javascript`. */
  lemma ScriptContentType(dir: string, stem: string)
    requires '/' !in stem && |stem| > 0
    ensures ContentType(dir + "/" + stem + ".js") == "text/javascript"
  {
    var js := "js";
    assert "." + js == ".js" && MimeTypes[".js"] == "text/javascript";
    assert dir + "/" + stem + ".js" == dir + "/" + stem + "." + js;
    ContentTypeOfFileName(MimeTypes, dir, stem, js);
  }

  /** HTML documents, the entry document among them, are served as
      `text/html`. */
  lemma HtmlContentType(dir: string, stem: string)
    requires '/' !in stem && |stem| > 0
    ensures ContentType(dir + "/" + stem + ".html") == "text/html"
  {
    var html := "html";
    assert "." + html == ".html" && MimeTypes[".html"] == "text/html";
    assert dir + "/" + stem + ".html" == dir + "/" + stem + "." + html;
    ContentTypeOfFileName(MimeTypes, dir, stem, html);
  }

  /** A file that reads successfully is served with status 200, the
      content type of its extension and its bytes. */
  lemma ServesFile(req: Request, fs: FileSystem)
    requires req.verb != "OPTIONS"
    requires ReadFile(fs, ResolvePath(req.url)).Contents?
    ensures var r := Handle(req, fs);
      && r.status == 200
      && r.headers == WithContentType(ContentType(ResolvePath(req.url)))
      && r.body == Data(ReadFile(fs, ResolvePath(req.url)).bytes)
  {
  }

  /** A missing file is answered with the entry document as `text/html`
      when that exists, and with 404 otherwise; the extension of the
      requested path plays no part. */
  lemma MissingFileFallsBack(req: Request, fs: FileSystem)
    requires req.verb != "OPTIONS"
    requires ReadFile(fs, ResolvePath(req.url)) == ReadError("ENOENT")
    ensures var r := Handle(req, fs);
      match ReadFile(fs, IndexPath)
      case Contents(index) => r == Response(200, WithContentType("text/html"), Data(index))
      case ReadError(_) => r == Response(404, CorsHeaders, Message("File not found"))
  {
  }

  /** `/missing.png` on a server that has the entry document but no such
      image gets the entry document with status 200, not a 404. */
  lemma MissingImageServesIndex(fs: FileSystem, index: seq<byte>)
    requires "/public/missing.png" !in fs
    requires IndexPath in fs && fs[IndexPath] == Contents(index)
    ensures Handle(Request("GET", "/missing.png"), fs).status == 200
    ensures Handle(Request("GET", "/missing.png"), fs).body == Data(index)
  {
    assert "/missing.png"[8] == '.';
    assert !StartsWith("/missing.png", "/public/") by { assert "/missing.png"[1] != "/public/"[1]; }
    assert ResolvePath("/missing.png") == "/public" + "/missing.png" == "/public/missing.png";
  }

  /** Exactly the read errors other than `ENOENT` give 500, and the body
      names the error code. */
  lemma ServerErrorExactly(req: Request, fs: FileSystem)
    requires req.verb != "OPTIONS"
    ensures var read := ReadFile(fs, ResolvePath(req.url));
      Handle(req, fs).status == 500 <==> read.ReadError? && read.code != "ENOENT"
    ensures var read := ReadFile(fs, ResolvePath(req.url));
      read.ReadError? && read.code != "ENOENT" ==>
        Handle(req, fs).body == Message("Server Error: " + read.code)
  {
  }

  /** Exactly a missing file with a missing entry document gives 404. */
  lemma NotFoundExactly(req: Request, fs: FileSystem)
    ensures Handle(req, fs).status == 404 <==>
      && req.verb != "OPTIONS"
      && ReadFile(fs, ResolvePath(req.url)) == ReadError("ENOENT")
      && ReadFile(fs, IndexPath).ReadError?
  {
    if req.verb != "OPTIONS" {
      var path := ResolvePath(req.url);
      AnswerNotFound(ReadFile(fs, path), ReadFile(fs, IndexPath), ContentType(path));
    }
  }

  lemma AnswerNotFound(read: ReadOutcome, index: ReadOutcome, contentType: string)
    ensures Answer(read, index, contentType).status == 404 <==> read == ReadError("ENOENT") && index.ReadError?
  {
  }
}
