/**
 * `download_grib_file`: refuse a destination that does not exist, name the
 * file after the last segment of the URL, request the URL and, on an ok
 * response, write every non-empty body chunk to the file in order.
 *
 * The network is a function from URL to `Response`; the machine is a set of
 * directories, a map from file path to contents and the log of URLs requested.
 * `requests.get` refuses a URL with no http or https scheme before it sends
 * anything, and raises when the server cannot be reached in time.
 */
module Downloader {
  import opened PyStr

  newtype byte = x: int | 0 <= x < 256

  type Bytes = seq<byte>

  /**
   * What `requests.get(url, stream=True, timeout=30)` yields: `req.ok`, `req.status_code`
   * and the chunks of the body, or the ConnectionError or Timeout it raises when the
   * server cannot be reached or does not answer within the timeout. With `stream=True`
   * the body is read later, while it is used; `broken` says that reading it fails
   * (a dropped connection or a read timeout) after the chunks listed.
   */
  datatype Response =
    | Response(ok: bool, status: int, chunks: seq<Bytes>, broken: bool)
    | Unreachable

  /** How one call of the downloader ends. */
  datatype Outcome =
    | Saved(path: string)      // ok response, body written to path
    | HttpFailed(status: int)  // non-ok response, reported and nothing written
    | DirectoryMissing         // the FileNotFoundError raised before any request
    | BadUrl                   // `requests.get` raised MissingSchema or InvalidSchema before any request
    | NetworkError             // `requests.get`, or reading the body, raised ConnectionError or Timeout
    | CannotOpen(path: string) // `open(path, 'wb')` raised: path is a directory or its parent is not one
  {
    /** The outcomes the source signals by raising an exception. */
    predicate Raised() { DirectoryMissing? || BadUrl? || NetworkError? || CannotOpen? }

    /** The outcomes reached after a request was sent. */
    predicate Requested() { !(DirectoryMissing? || BadUrl?) }
  }

  /** The part of the machine the downloader sees. */
  datatype HostState = HostState(dirs: set<string>, files: map<string, Bytes>, requested: seq<string>)

  /** `os.path.exists(p)`: a directory or a file of that name exists. */
  predicate PathExists(h: HostState, p: string) { p in h.dirs || p in h.files }

  /** `open(path, 'wb')` succeeds when path is not a directory, does not end in a slash
      (an empty file name gives `dest/`, which raises IsADirectoryError) and its
      directory exists. */
  predicate CanCreate(h: HostState, dest: string, path: string)
  {
    dest in h.dirs && path !in h.dirs && path != [] && path[|path| - 1] != '/'
  }

  /** `requests` strips leading whitespace from the URL, mounts its transport adapters on
      "http://" and "https://" and picks one by a case-insensitive prefix match; a URL
      matching neither raises before any request is sent. */
  predicate HasHttpScheme(url: string)
  {
    StartsWithIgnoringCase(LStrip(url), "http://") || StartsWithIgnoringCase(LStrip(url), "https://")
  }

  /** A URL that starts with '/' has nothing to strip and no http or https scheme. */
  lemma SlashFirstHasNoScheme(url: string)
    requires url != [] && url[0] == '/'
    ensures LStrip(url) == url
    ensures !HasHttpScheme(url)
  {
    assert !IsSpace(url[0]);
    assert LowerAscii(url[0]) == '/';
  }

  /** `url.split('/')[-1].replace(" ", "_")`. */
  function FileName(url: string): (name: string)
    ensures '/' !in name && ' ' !in name
    ensures |name| == |LastSegment(url)|
    ensures forall i :: 0 <= i < |name| ==>
      name[i] == (if LastSegment(url)[i] == ' ' then '_' else LastSegment(url)[i])
    ensures '/' !in url && ' ' !in url ==> name == url
  {
    if '/' !in url then LastSegmentWithoutSlash(url); ReplaceChar(LastSegment(url), ' ', '_')
    else ReplaceChar(LastSegment(url), ' ', '_')
  }

  /** `os.path.join(dest_folder, filename)`. */
  function FilePath(dest: string, url: string): string
  {
    PosixJoin(dest, FileName(url))
  }

  /** The body as one byte string: the chunks concatenated in order. */
  function Concat(chunks: seq<Bytes>): Bytes
    decreases |chunks|
  {
    if chunks == [] then [] else Concat(chunks[..|chunks| - 1]) + chunks[|chunks| - 1]
  }

  /** The chunks that get written: `if chunk:` passes over the empty ones. */
  function NonEmpty(chunks: seq<Bytes>): (kept: seq<Bytes>)
    ensures |kept| <= |chunks|
    ensures forall i :: 0 <= i < |kept| ==> kept[i] != []
    decreases |chunks|
  {
    if chunks == [] then []
    else
      var last := chunks[|chunks| - 1];
      NonEmpty(chunks[..|chunks| - 1]) + (if last != [] then [last] else [])
  }

  lemma ConcatSnoc(chunks: seq<Bytes>, c: Bytes)
    ensures Concat(chunks + [c]) == Concat(chunks) + c
  {
    assert (chunks + [c])[..|chunks|] == chunks;
  }

  /** Skipping the empty chunks does not change the bytes written. */
  lemma {:induction false} EmptyChunksContributeNothing(chunks: seq<Bytes>)
    ensures Concat(NonEmpty(chunks)) == Concat(chunks)
    decreases |chunks|
  {
    if chunks != [] {
      var front, last := chunks[..|chunks| - 1], chunks[|chunks| - 1];
      EmptyChunksContributeNothing(front);
      if last != [] {
        ConcatSnoc(NonEmpty(front), last);
      } else {
        assert NonEmpty(chunks) == NonEmpty(front) + [] == NonEmpty(front);
        assert Concat(chunks) == Concat(front) + last == Concat(front);
      }
    }
  }

  /** One more chunk through the write loop appends it, unless it is empty. */
  lemma WrittenSoFar(chunks: seq<Bytes>, k: nat)
    requires k < |chunks|
    ensures Concat(NonEmpty(chunks[..k + 1])) == Concat(NonEmpty(chunks[..k])) + chunks[k]
    ensures chunks[k] == [] ==> Concat(NonEmpty(chunks[..k + 1])) == Concat(NonEmpty(chunks[..k]))
  {
    var kept := NonEmpty(chunks[..k]);
    assert chunks[..k + 1][..k] == chunks[..k];
    if chunks[k] != [] {
      ConcatSnoc(kept, chunks[k]);
    } else {
      assert NonEmpty(chunks[..k + 1]) == kept + [] == kept;
    }
  }

  /** Writing a file twice leaves what the second write put there. */
  lemma OverwriteTwice(m: map<string, Bytes>, p: string, a: Bytes, b: Bytes)
    ensures m[p := a][p := b] == m[p := b]
  {
  }

  /**
   * One call of `download_grib_file(url, dest)` on the machine h, with the
   * server answering `fetch(url)`.
   */
  function Download(h: HostState, url: string, dest: string, fetch: string -> Response): (r: (HostState, Outcome))
    ensures r.0.dirs == h.dirs
    ensures r.1 == DirectoryMissing <==> !PathExists(h, dest)
    ensures r.1 == BadUrl <==> PathExists(h, dest) && !HasHttpScheme(url)
    ensures !r.1.Requested() ==> r.0 == h
    ensures r.1.Requested() ==> r.0.requested == h.requested + [url]
    ensures Opens(h, url, dest, fetch) ==> r.0.files == h.files[FilePath(dest, url) := Concat(fetch(url).chunks)]
    ensures !Opens(h, url, dest, fetch) ==> r.0.files == h.files
  {
    if !PathExists(h, dest) then (h, DirectoryMissing)
    else
      var path := FilePath(dest, url);
      if !HasHttpScheme(url) then (h, BadUrl)
      else
        var resp := fetch(url);
        var asked := h.(requested := h.requested + [url]);
        if resp.Unreachable? then (asked, NetworkError)
        else if !resp.ok then (asked, if resp.broken then NetworkError else HttpFailed(resp.status))
        else if !CanCreate(h, dest, path) then (asked, CannotOpen(path))
        else (asked.(files := h.files[path := Concat(resp.chunks)]), if resp.broken then NetworkError else Saved(path))
  }

  /** The destination exists and the URL is one `requests.get` sends. */
  predicate Sends(h: HostState, url: string, dest: string)
  {
    PathExists(h, dest) && HasHttpScheme(url)
  }

  /** The call gets as far as opening the file: an ok response, and `open` succeeds. */
  predicate Opens(h: HostState, url: string, dest: string, fetch: string -> Response)
  {
    Sends(h, url, dest) && fetch(url).Response? && fetch(url).ok && CanCreate(h, dest, FilePath(dest, url))
  }

  /** How a call that sends its request ends: no answer or a body that breaks raises,
      except that a failed `open` raises first; a non-ok status is only reported; an ok
      response whose file opens is saved. */
  lemma DownloadOutcome(h: HostState, url: string, dest: string, fetch: string -> Response)
    ensures var r := Download(h, url, dest, fetch);
            && (r.1 == NetworkError <==>
                 (Sends(h, url, dest) &&
                  (fetch(url).Unreachable? ||
                   (fetch(url).broken && (!fetch(url).ok || CanCreate(h, dest, FilePath(dest, url)))))))
            && (r.1.HttpFailed? <==> Sends(h, url, dest) && fetch(url).Response? && !fetch(url).ok && !fetch(url).broken)
            && (r.1.HttpFailed? ==> r.1.status == fetch(url).status)
            && (r.1.CannotOpen? <==> (Sends(h, url, dest) && fetch(url).Response? && fetch(url).ok &&
                                      !CanCreate(h, dest, FilePath(dest, url))))
            && (r.1.CannotOpen? ==> r.1.path == FilePath(dest, url))
            && (r.1.Saved? <==> (Sends(h, url, dest) && fetch(url).Response? && fetch(url).ok && !fetch(url).broken &&
                                 CanCreate(h, dest, FilePath(dest, url))))
            && (r.1.Saved? ==> r.1.path == FilePath(dest, url))
  {
  }

  /** The machine: its directories, its files and the requests it has sent. */
  class Host {
    var dirs: set<string>
    var files: map<string, Bytes>
    var requested: seq<string>

    function State(): HostState
      reads this
    {
      HostState(dirs, files, requested)
    }

    constructor (dirs: set<string>, files: map<string, Bytes>)
      ensures State() == HostState(dirs, files, [])
    {
      this.dirs := dirs;
      this.files := files;
      this.requested := [];
    }

    /** `open(path, 'wb')` and the loop over the body: the file ends up holding the
        non-empty chunks in order. */
    method WriteChunks(path: string, chunks: seq<Bytes>)
      modifies this
      ensures dirs == old(dirs) && requested == old(requested)
      ensures files == old(files)[path := Concat(NonEmpty(chunks))]
    {
      ghost var f0 := files;
      var written: Bytes := [];
      files := files[path := written];
      for k := 0 to |chunks|
        invariant written == Concat(NonEmpty(chunks[..k]))
        invariant dirs == old(dirs) && requested == old(requested)
        invariant files == f0[path := written]
      {
        var chunk := chunks[k];
        WrittenSoFar(chunks, k);
        if chunk != [] {
          OverwriteTwice(f0, path, written, written + chunk);
          written := written + chunk;
          files := files[path := written];
        }
      }
      assert chunks[..|chunks|] == chunks;
    }

    /** `download_grib_file(url, dest)`, the server answering `fetch(url)`. */
    method DownloadGribFile(url: string, dest: string, fetch: string -> Response) returns (outcome: Outcome)
      modifies this
      ensures (State(), outcome) == Download(old(State()), url, dest, fetch)
    {
      ghost var before := State();
      if !(dest in dirs || dest in files) {
        return DirectoryMissing;
      }
      var filename := FileName(url);
      var path := PosixJoin(dest, filename);
      assert path == FilePath(dest, url);
      if !HasHttpScheme(url) {
        return BadUrl;
      }
      var req := fetch(url);
      requested := requested + [url];
      if req.Unreachable? {
        return NetworkError;
      }
      if !req.ok {
        // printing `req.text` reads the body
        return if req.broken then NetworkError else HttpFailed(req.status);
      }
      if path in dirs || dest !in dirs || path == [] || path[|path| - 1] == '/' {
        return CannotOpen(path);
      }
      WriteChunks(path, req.chunks);
      EmptyChunksContributeNothing(req.chunks);
      outcome := if req.broken then NetworkError else Saved(path);
      assert Download(before, url, dest, fetch) == (State(), outcome);
    }
  }
}
