/**
 * One connection handled end to end: read the request path, classify the
 * location, write the header, then the content. The socket, the clock and
 * the file system become parameters: the request as lines, the working
 * directory as `root`, the two formatted dates, and a map from locations to
 * the files that can be opened there.
 */
module WebWorker {
  import opened Wrappers
  import opened WebText
  import opened RequestParser
  import opened ContentClassifier
  import opened ResponseHeader
  import opened ContentDelivery

  /** Everything the worker writes on one connection, and whether it ended in the not-found error. */
  datatype Response = Response(header: string, body: Body, failed: bool)

  /** The file found at a location, if one can be opened there. */
  function Open(files: map<string, File>, location: string): (f: Option<File>)
    ensures f.Some? <==> location in files
    ensures f.Some? ==> f.value == files[location]
  {
    if location in files then Some(files[location]) else None
  }

  /**
   * The worker's `run`: the header carries the date formatted in GMT, the
   * HTML content the date formatted by a second formatter.
   */
  function Run(request: seq<string>, root: string, files: map<string, File>,
               headerDate: string, contentDate: string): (r: Response)
    ensures StatusLine + "\n" <= r.header
    ensures r.header == WriteHTTPHeader(headerDate, ContentTypeOf(root + RequestPath(request)))
    ensures r.failed <==> root + RequestPath(request) !in files
    ensures r.failed ==> r.body == Text(NotFoundPage)
  {
    var location := root + RequestPath(request);
    var contentType := ContentTypeOf(location);
    var delivery := WriteContent(Open(files, location), contentType, contentDate);
    Response(WriteHTTPHeader(headerDate, contentType), delivery.body, delivery.notFound)
  }

  /**
   * A missing file is answered with the 404 page under a `200 OK` status
   * line, whatever its type.
   */
  lemma MissingFileStill200(request: seq<string>, root: string, files: map<string, File>,
                            headerDate: string, contentDate: string)
    requires root + RequestPath(request) !in files
    ensures SplitLines(Run(request, root, files, headerDate, contentDate).header)[0] == "HTTP/1.1 200 OK"
    ensures Run(request, root, files, headerDate, contentDate).body == Text(NotFoundPage)
  {
    var h := Run(request, root, files, headerDate, contentDate).header;
    var rest := h[|StatusLine| + 1..];
    assert h == StatusLine + "\n" + rest;
    StatusLineNoNewline();
    SplitLinesCons(StatusLine, rest);
  }

  /**
   * An image file that exists reaches the client byte for byte, after a
   * header announcing its image type.
   */
  lemma ImageServedVerbatim(request: seq<string>, root: string, files: map<string, File>,
                            headerDate: string, contentDate: string)
    requires root + RequestPath(request) in files
    requires ContentTypeOf(root + RequestPath(request)) != Html
    ensures Run(request, root, files, headerDate, contentDate).body
         == Binary(files[root + RequestPath(request)].bytes)
    ensures !Run(request, root, files, headerDate, contentDate).failed
  {
    ImageTypes(root + RequestPath(request));
  }

  /**
   * An existing file whose location names no image is sent as HTML: the
   * header announces `text/html` and the body is the file's rendered lines.
   */
  lemma HtmlServed(request: seq<string>, root: string, files: map<string, File>,
                   headerDate: string, contentDate: string)
    requires root + RequestPath(request) in files
    requires var loc := root + RequestPath(request);
             !Contains(loc, ".jpg") && !Contains(loc, ".png") && !Contains(loc, ".gif") && !Contains(loc, ".ico")
    ensures var r := Run(request, root, files, headerDate, contentDate);
            r.header == WriteHTTPHeader(headerDate, Html)
            && r.body == Text(HtmlBody(files[root + RequestPath(request)].lines, contentDate))
            && !r.failed
  {
    NoMarkerIsHtml(root + RequestPath(request));
  }

  /**
   * A well-formed request for a path containing ".png", served from a
   * location without ".jpg", is answered with a PNG header and the file's bytes.
   */
  lemma PngRequest(path: string, headers: seq<string>, tail: seq<string>, root: string,
                   files: map<string, File>, headerDate: string, contentDate: string)
    requires forall i :: 0 <= i < |path| ==> path[i] != ' '
    requires forall j :: 0 <= j < |headers| ==> headers[j] != "" && !Contains(headers[j], GetMarker)
    requires Contains(path, ".png") && !Contains(root + path, ".jpg")
    requires root + path in files
    ensures var r := Run([GetMarker + path + " HTTP/1.1"] + headers + [""] + tail,
                         root, files, headerDate, contentDate);
            r.header == WriteHTTPHeader(headerDate, Png) && r.body == Binary(files[root + path].bytes)
  {
    SimpleRequestPath(path, headers, tail);
    ContainsInContext(root, path, "", ".png");
    assert root + path + "" == root + path;
    ImageTypes(root + path);
  }
}
