/**
 * Resource locators and the resource opener (`newReadCloserFromURL` in
 * utils.go). URL parsing, the HTTP client and the file system are outside the
 * model: they are the functions of an `Environment`.
 */
module Opener {
  import opened Wrappers

  /** A parsed resource locator (`url.URL`): its scheme and the rest of the address. */
  datatype Url = Url(scheme: string, address: string)

  /**
   * The outcome of one `Read` into the chunk buffer: the bytes received
   * (with or without `io.EOF`), or an error other than `io.EOF`. A real read
   * never fills more than the buffer; a longer `Data` is read like a full one.
   */
  datatype Read = Data(bytes: string) | ReadFailure

  /** The results of successive reads of an opened resource. */
  type Stream = seq<Read>

  /** The `k`-th read; once the recorded reads are used up, every read returns no bytes and `io.EOF`. */
  function ReadAt(stream: Stream, k: nat): Read
  {
    if k < |stream| then stream[k] else Data("")
  }

  /**
   * The collaborators the model does not look inside: `url.Parse`, the HTTP GET
   * of `net/http`, and opening a file URL's absolute path with `os.Open`
   * (including `filepath.Abs` of an opaque address). Each may fail.
   */
  datatype Environment = Environment(
    parse: string -> Option<Url>,
    fetch: Url -> Option<Stream>,
    openFile: Url -> Option<Stream>)

  /** Why a resource could not be opened. */
  datatype OpenError = UnsupportedScheme(scheme: string) | RequestFailed(url: Url) | FileOpenFailed(url: Url)

  /**
   * `newReadCloserFromURL`: an `http` locator is fetched, a `file` locator is
   * opened from disk, and any other scheme fails without reading anything.
   */
  function Open(env: Environment, u: Url): (r: Result<Stream, OpenError>)
    ensures u.scheme != "http" && u.scheme != "file" ==> r == Err(UnsupportedScheme(u.scheme))
    ensures u.scheme == "http" ==> (r.Ok? <==> env.fetch(u).Some?) && (r.Ok? ==> env.fetch(u) == Some(r.value))
    ensures u.scheme == "file" ==> (r.Ok? <==> env.openFile(u).Some?) && (r.Ok? ==> env.openFile(u) == Some(r.value))
  {
    if u.scheme == "http" then
      match env.fetch(u)
      case Some(stream) => Ok(stream)
      case None => Err(RequestFailed(u))
    else if u.scheme == "file" then
      match env.openFile(u)
      case Some(stream) => Ok(stream)
      case None => Err(FileOpenFailed(u))
    else Err(UnsupportedScheme(u.scheme))
  }
}
