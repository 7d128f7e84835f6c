/**
 * HttpResponse: the status decision for a parsed request against the
 * resource its URI names, the ordered header list and body it builds, and
 * `write`, which frames them as an HTTP/1.0 message (section 6 of RFC 2616).
 *
 * The filesystem and the clock are inputs: the resource is a `Resource`
 * value and the `Date:` text is a parameter.
 */
module Response {
  import opened Wrappers
  import opened JavaStrings
  import opened RequestHeaders
  import opened Request

  // ---------------------------------------------------------------------
  // Status and Content-Type
  // ---------------------------------------------------------------------

  /** `HttpResponse.VERSION`: every response claims HTTP/1.0. */
  const Version := "HTTP/1.0"

  const ServerHeader := "Server: SimpleWebServer"

  /** The `Status` constants the response code uses. */
  datatype Status = S200 | S304 | S400 | S404 | S412 | S501

  /** `status.toString()`: the status code and its reason phrase (section 6.1.1 of RFC 2616). */
  function StatusText(s: Status): string {
    match s
    case S200 => "200 OK"
    case S304 => "304 Not Modified"
    case S400 => "400 Bad Request"
    case S404 => "404 Not Found"
    case S412 => "412 Precondition Failed"
    case S501 => "501 Not Implemented"
  }

  /** The three-digit code that opens each status text. */
  function StatusCode(s: Status): (code: nat)
    ensures 100 <= code < 600
  {
    match s
    case S200 => 200
    case S304 => 304
    case S400 => 400
    case S404 => 404
    case S412 => 412
    case S501 => 501
  }

  /** The Status-Line: version, a space, and the status text. */
  function StatusLine(s: Status): (line: string)
    ensures StartsWith(line, Version + " ")
  {
    Version + " " + StatusText(s)
  }

  /** Distinct statuses have distinct codes and distinct status lines. */
  lemma StatusLineIdentifiesStatus(a: Status, b: Status)
    ensures StatusCode(a) == StatusCode(b) <==> a == b
    ensures StatusLine(a) == StatusLine(b) <==> a == b
  {
    if StatusLine(a) == StatusLine(b) {
      assert StatusLine(a)[9..12] == StatusLine(b)[9..12];
    }
  }

  /** The `ContentType` constants `setContentType` can name. */
  datatype ContentType = CSS | GIF | HTM | HTML | ICO | JPG | JPEG | JS | PNG | TXT | XML

  /** The constant's name, which `ContentType.valueOf` matches. */
  function ContentTypeName(t: ContentType): string {
    match t
    case CSS => "CSS"
    case GIF => "GIF"
    case HTM => "HTM"
    case HTML => "HTML"
    case ICO => "ICO"
    case JPG => "JPG"
    case JPEG => "JPEG"
    case JS => "JS"
    case PNG => "PNG"
    case TXT => "TXT"
    case XML => "XML"
  }

  /** The media type each constant announces. */
  function MimeType(t: ContentType): string {
    match t
    case CSS => "text/css"
    case GIF => "image/gif"
    case HTM => "text/html"
    case HTML => "text/html"
    case ICO => "image/x-icon"
    case JPG => "image/jpeg"
    case JPEG => "image/jpeg"
    case JS => "application/javascript"
    case PNG => "image/png"
    case TXT => "text/plain"
    case XML => "text/xml"
  }

  /** `contentType.toString()`: the header line it adds. */
  function ContentTypeHeader(t: ContentType): string {
    "Content-Type: " + MimeType(t)
  }

  /** `ContentType.valueOf(name)`: `None` where Java throws IllegalArgumentException. */
  function ContentTypeValueOf(name: string): (r: Option<ContentType>)
    ensures r.Some? ==> ContentTypeName(r.value) == name
    ensures r.None? <==> forall t: ContentType :: ContentTypeName(t) != name
  {
    if name == "CSS" then Some(CSS)
    else if name == "GIF" then Some(GIF)
    else if name == "HTM" then Some(HTM)
    else if name == "HTML" then Some(HTML)
    else if name == "ICO" then Some(ICO)
    else if name == "JPG" then Some(JPG)
    else if name == "JPEG" then Some(JPEG)
    else if name == "JS" then Some(JS)
    else if name == "PNG" then Some(PNG)
    else if name == "TXT" then Some(TXT)
    else if name == "XML" then Some(XML)
    else None
  }

  /** `valueOf` maps each constant's name back to the constant, so no two constants share a name. */
  lemma ContentTypeNamesRoundTrip()
    ensures forall t: ContentType :: ContentTypeValueOf(ContentTypeName(t)) == Some(t)
  {
    forall t: ContentType
      ensures ContentTypeValueOf(ContentTypeName(t)) == Some(t)
    {
      match t
      case CSS =>
      case GIF =>
      case HTM =>
      case HTML =>
      case ICO =>
      case JPG =>
      case JPEG =>
      case JS =>
      case PNG =>
      case TXT =>
      case XML =>
    }
  }

  /** The extension `setContentType` looks up: the upper-cased text after the first '.' of the URI. */
  function Extension(uri: string): string {
    ToUpper(AfterFirst(uri, '.'))
  }

  /**
   * What `setContentType(uri, headers)` appends: the type whose name is the
   * extension, or nothing (the exception is caught and logged).
   */
  function ContentTypeHeaders(uri: string): (r: seq<string>)
    ensures r == [] <==> forall t: ContentType :: ContentTypeName(t) != Extension(uri)
    ensures forall t: ContentType :: ContentTypeName(t) == Extension(uri) ==> r == [ContentTypeHeader(t)]
  {
    ContentTypeNamesRoundTrip();
    match ContentTypeValueOf(Extension(uri))
    case None => []
    case Some(t) => [ContentTypeHeader(t)]
  }

  // ---------------------------------------------------------------------
  // The resource and the directory listing
  // ---------------------------------------------------------------------

  /**
   * What `new File(rootPath + uri)` finds. A `None` content is a file whose
   * bytes cannot be read (`getBytes` throws); a `None` child list is a
   * directory `listFiles` returns null for. `etag` is what `generateETag`
   * returns for the file, `None` for null.
   */
  datatype Resource =
    | RegularFile(content: Option<seq<bv8>>, lastModified: string, etag: Option<string>)
    | Directory(children: Option<seq<string>>)
    | Missing

  /** The listing line for one child path. */
  function Anchor(path: string): string {
    " <a href=\"" + path + "\">" + path + "</a>\n"
  }

  /** One anchor line per child path, in listing order. */
  function Anchors(paths: seq<string>): string {
    if paths == [] then "" else Anchors(paths[..|paths| - 1]) + Anchor(paths[|paths| - 1])
  }

  function ListingHead(uri: string): string {
    "<html><head><title>Index of " + uri + "</title></head><body><h1>Index of " + uri + "</h1><hr><pre>"
  }

  const ListingTail := "<hr></pre></body></html>"

  /** The HTML page the directory branch builds. */
  function Listing(uri: string, paths: seq<string>): string {
    ListingHead(uri) + Anchors(paths) + ListingTail
  }

  lemma {:induction false} AnchorsAppend(a: seq<string>, b: seq<string>)
    ensures Anchors(a + b) == Anchors(a) + Anchors(b)
    decreases |b|
  {
    if b != [] {
      var init := b[..|b| - 1];
      assert (a + b)[..|a + b| - 1] == a + init;
      AnchorsAppend(a, init);
    } else {
      assert a + b == a;
    }
  }

  /**
   * The listing holds the anchor of every child at its place: the anchors of
   * the children before it, then its own, then those after it.
   */
  lemma AnchorOfEachChild(paths: seq<string>, i: nat)
    requires i < |paths|
    ensures Anchors(paths) == Anchors(paths[..i]) + Anchor(paths[i]) + Anchors(paths[i + 1..])
  {
    var upTo, after := paths[..i + 1], paths[i + 1..];
    assert paths == upTo + after;
    assert upTo[..i] == paths[..i] && upTo[i] == paths[i];
    calc {
      Anchors(paths);
      { AnchorsAppend(upTo, after); }
      Anchors(upTo) + Anchors(after);
      Anchors(paths[..i]) + Anchor(paths[i]) + Anchors(after);
    }
  }

  /** The five appends of one loop turn add exactly one anchor line. */
  lemma AppendAnchor(html: string, path: string)
    ensures html + " <a href=\"" + path + "\">" + path + "</a>\n" == html + Anchor(path)
  {
  }

  /** The directory branch's loop over `file.listFiles()`. */
  method DirectoryListing(uri: string, paths: seq<string>) returns (html: string)
    ensures html == Listing(uri, paths)
  {
    html := "<html><head><title>Index of ";
    html := html + uri;
    html := html + "</title></head><body><h1>Index of ";
    html := html + uri;
    html := html + "</h1><hr><pre>";
    ghost var head := html;
    assert head == ListingHead(uri);
    assert html == head + Anchors(paths[..0]);
    for i := 0 to |paths|
      invariant html == head + Anchors(paths[..i])
    {
      ghost var before := html;
      html := html + " <a href=\"";
      html := html + paths[i];
      html := html + "\">";
      html := html + paths[i];
      html := html + "</a>\n";
      AppendAnchor(before, paths[i]);
      assert paths[..i + 1][..i] == paths[..i];
    }
    assert paths[..|paths|] == paths;
    html := html + ListingTail;
  }

  // ---------------------------------------------------------------------
  // The response the constructor builds
  // ---------------------------------------------------------------------

  /** The headers and body an HttpResponse holds (`body` is null for `None`). */
  datatype Response = Response(headers: seq<string>, body: Option<seq<bv8>>)

  /** `fillHeaders(status)`: status line, `Date:` (the clock reading, a parameter here) and `Server:`. */
  function StandardHeaders(status: Status, date: string): seq<string> {
    [StatusLine(status), "Date: " + date, ServerHeader]
  }

  /** `fillResponse(status.toString())`. */
  function StatusBody(status: Status): seq<bv8> {
    LowBytes(StatusText(status))
  }

  /** The catch block of the GET branch: 400 headers after whatever was already added, and the 400 text. */
  function Failed(headers: seq<string>, date: string): Response {
    Response(headers + StandardHeaders(S400, date), Some(StatusBody(S400)))
  }

  /** The GET branch on a directory. */
  function RespondDirectory(uri: string, children: Option<seq<string>>, date: string): Response {
    var headers := StandardHeaders(S200, date) + [ContentTypeHeader(HTML)];
    if children.None? then Failed(headers, date)
    else Response(headers, Some(LowBytes(Listing(uri, children.value))))
  }

  /** Where the conditional checks of the file branch lead. */
  datatype Outcome =
    | PreconditionFailed   // 412
    | NotModified          // 304
    | NotModifiedWithETag  // 304 and the ETag
    | Proceed              // 200 and the file

  /**
   * The If-Match, If-Modified-Since and If-None-Match checks, in the order the
   * code makes them; the first that fires decides. The wildcard tests also ask
   * `file.exists()`, which holds in this branch.
   */
  function Decide(reqHeaders: seq<string>, lastModified: string, etag: Option<string>): (o: Outcome)
    ensures o != PreconditionFailed ==> etag.Some?
    ensures o == PreconditionFailed <==> !IfMatch(reqHeaders, etag)
    ensures o == NotModified <==> IfMatch(reqHeaders, etag) && !IfModifiedSince(reqHeaders, lastModified)
    ensures o == NotModifiedWithETag <==>
      (IfMatch(reqHeaders, etag) && IfModifiedSince(reqHeaders, lastModified)
       && (IfNoneMatch(reqHeaders, etag) || IsIfNoneMatchWildcard(reqHeaders)))
    ensures o == Proceed <==>
      (IfMatch(reqHeaders, etag) && IfModifiedSince(reqHeaders, lastModified)
       && !IfNoneMatch(reqHeaders, etag) && !IsIfNoneMatchWildcard(reqHeaders))
  {
    if !IfMatch(reqHeaders, etag) then PreconditionFailed
    else if !IfModifiedSince(reqHeaders, lastModified) then NotModified
    else if IfNoneMatch(reqHeaders, etag) || IsIfNoneMatchWildcard(reqHeaders) then NotModifiedWithETag
    else Proceed
  }

  /** The GET branch on an existing regular file, once the checks have led to `outcome`. */
  function RespondFile(uri: string, outcome: Outcome, content: Option<seq<bv8>>, lastModified: string,
                       etag: Option<string>, date: string): Response
    requires outcome != PreconditionFailed ==> etag.Some?
  {
    match outcome
    case PreconditionFailed => Response(StandardHeaders(S412, date), None)
    case NotModified => Response(StandardHeaders(S304, date), None)
    case NotModifiedWithETag => Response(StandardHeaders(S304, date) + ["ETag: " + etag.value], None)
    case Proceed =>
      var headers := StandardHeaders(S200, date)
        + ["Last-Modified: " + lastModified, "ETag: " + etag.value]
        + ContentTypeHeaders(uri);
      if content.None? then Failed(headers, date) else Response(headers, content)
  }

  /** The GET branch, for the resource the URI names. */
  function RespondGet(uri: string, reqHeaders: seq<string>, resource: Resource, date: string): Response {
    match resource
    case Directory(children) => RespondDirectory(uri, children, date)
    case RegularFile(content, lastModified, etag) => RespondFile(uri, Decide(reqHeaders, lastModified, etag), content, lastModified, etag, date)
    case Missing => Response(StandardHeaders(S404, date), Some(StatusBody(S404)))
  }

  /** What `new HttpResponse(req)` holds: the switch on the request method. */
  function Respond(req: Request, resource: Resource, date: string): Response {
    match req.httpMethod
    case HEAD => Response(StandardHeaders(S200, date), None)
    case GET => RespondGet(req.uri, req.headers, resource, date)
    case UNRECOGNIZED => Response(StandardHeaders(S400, date), Some(StatusBody(S400)))
    case _ => Response(StandardHeaders(S501, date), Some(StatusBody(S501)))
  }

  // ---------------------------------------------------------------------
  // The wire format
  // ---------------------------------------------------------------------

  const CRLF: seq<bv8> := [13, 10]

  lemma LowBytesOfCRLF()
    ensures LowBytes("\r\n") == CRLF
  {
    var r := LowBytes("\r\n");
    assert r[0] == LowByte('\r') == 13 && r[1] == LowByte('\n') == 10;
  }

  /** Each header followed by CRLF. */
  function HeaderBytes(headers: seq<string>): seq<bv8> {
    if headers == [] then []
    else HeaderBytes(headers[..|headers| - 1]) + LowBytes(headers[|headers| - 1]) + CRLF
  }

  function BodyBytes(body: Option<seq<bv8>>): seq<bv8> {
    if body.Some? then body.value else []
  }

  /** What `write` sends: the header lines, an empty line, the body if any, and a closing CRLF. */
  function Wire(r: Response): seq<bv8> {
    HeaderBytes(r.headers) + CRLF + BodyBytes(r.body) + CRLF
  }

  // ---------------------------------------------------------------------
  // The HttpResponse object
  // ---------------------------------------------------------------------

  class HttpResponse {
    var headers: seq<string>
    var body: Option<seq<bv8>>

    /** The response these fields describe. */
    function Value(): Response
      reads this
    {
      Response(headers, body)
    }

    /** `new HttpResponse(req)`, with the resource and the clock reading as inputs. */
    constructor (req: HttpRequest, resource: Resource, date: string)
      ensures Value() == Respond(req.Value(), resource, date)
    {
      headers := [];
      body := None;
      new;
      match req.httpMethod
      case HEAD =>
        FillHeaders(S200, date);
      case GET =>
        Get(req.uri, req.headers, resource, date);
      case UNRECOGNIZED =>
        FillHeaders(S400, date);
        FillResponseText(StatusText(S400));
      case _ =>
        FillHeaders(S501, date);
        FillResponseText(StatusText(S501));
    }

    /** The `case GET` block of the constructor. */
    method Get(uri: string, reqHeaders: seq<string>, resource: Resource, date: string)
      requires headers == [] && body == None
      modifies this
      ensures Value() == RespondGet(uri, reqHeaders, resource, date)
    {
      match resource
      case Directory(children) =>
        GetDirectory(uri, children, date);
      case RegularFile(content, lastModified, etag) =>
        var outcome := Decide(reqHeaders, lastModified, etag);
        GetFile(uri, outcome, content, lastModified, etag, date);
      case Missing =>
        FillHeaders(S404, date);
        FillResponseText(StatusText(S404));
    }

    /** The `file.isDirectory()` branch, with the listing loop. */
    method GetDirectory(uri: string, children: Option<seq<string>>, date: string)
      requires headers == [] && body == None
      modifies this
      ensures Value() == RespondDirectory(uri, children, date)
    {
      FillHeaders(S200, date);
      headers := headers + [ContentTypeHeader(HTML)];
      if children.None? {
        // The for loop dereferences the null array; the catch block answers 400.
        FillHeaders(S400, date);
        FillResponseText(StatusText(S400));
        return;
      }
      var html := DirectoryListing(uri, children.value);
      FillResponseText(html);
    }

    /** The `file.exists()` branch, once the three conditional checks have led to `outcome`. */
    method GetFile(uri: string, outcome: Outcome, content: Option<seq<bv8>>, lastModified: string,
                   etag: Option<string>, date: string)
      requires outcome != PreconditionFailed ==> etag.Some?
      requires headers == [] && body == None
      modifies this
      ensures Value() == RespondFile(uri, outcome, content, lastModified, etag, date)
    {
      if outcome == PreconditionFailed {
        FillHeaders(S412, date);
        return;
      }
      if outcome == NotModified {
        FillHeaders(S304, date);
        return;
      }
      if outcome == NotModifiedWithETag {
        FillHeaders(S304, date);
        headers := headers + ["ETag: " + etag.value];
        return;
      }
      FillHeaders(S200, date);
      headers := headers + ["Last-Modified: " + lastModified];
      headers := headers + ["ETag: " + etag.value];
      ghost var found := headers;
      assert found == StandardHeaders(S200, date) + ["Last-Modified: " + lastModified, "ETag: " + etag.value];
      SetContentType(uri);
      assert headers == found + ContentTypeHeaders(uri);
      if content.None? {
        // getBytes throws; the catch block answers 400.
        FillHeaders(S400, date);
        FillResponseText(StatusText(S400));
        return;
      }
      FillResponse(content.value);
    }

    /** `fillHeaders(status)`. */
    method FillHeaders(status: Status, date: string)
      modifies this
      ensures headers == old(headers) + StandardHeaders(status, date) && body == old(body)
    {
      headers := headers + [Version + " " + StatusText(status)];
      headers := headers + ["Date: " + date];
      headers := headers + [ServerHeader];
    }

    /** `fillResponse(String)`: the text's bytes. */
    method FillResponseText(text: string)
      modifies this
      ensures body == Some(LowBytes(text)) && headers == old(headers)
    {
      body := Some(LowBytes(text));
    }

    /** `fillResponse(byte[])`. */
    method FillResponse(bytes: seq<bv8>)
      modifies this
      ensures body == Some(bytes) && headers == old(headers)
    {
      body := Some(bytes);
    }

    /** `setContentType(uri, headers)`. */
    method SetContentType(uri: string)
      modifies this
      ensures headers == old(headers) + ContentTypeHeaders(uri) && body == old(body)
    {
      var ext := AfterFirst(uri, '.');
      var t := ContentTypeValueOf(ToUpper(ext));
      if t.Some? {
        headers := headers + [ContentTypeHeader(t.value)];
      }
    }

    /** `write(os)`: the bytes sent to the stream, in order. */
    method Write() returns (wire: seq<bv8>)
      ensures wire == Wire(Value())
    {
      wire := [];
      for i := 0 to |headers|
        invariant wire == HeaderBytes(headers[..i])
      {
        LowBytesAppend(headers[i], "\r\n");
        LowBytesOfCRLF();
        wire := wire + LowBytes(headers[i] + "\r\n");
        assert headers[..i + 1][..i] == headers[..i];
      }
      assert headers[..|headers|] == headers;
      LowBytesOfCRLF();
      wire := wire + LowBytes("\r\n");
      if body.Some? {
        wire := wire + body.value;
      }
      wire := wire + LowBytes("\r\n");
    }
  }

  // ---------------------------------------------------------------------
  // Reading a written response back
  // ---------------------------------------------------------------------

  /** A response as a client sees it: the header lines as bytes, and the body. */
  datatype Message = Message(lines: seq<seq<bv8>>, body: seq<bv8>)

  /**
   * Splits written bytes at CRLFs into header lines up to the first empty
   * line; what lies between it and the closing CRLF is the body.
   */
  function ReadBack(w: seq<bv8>): Option<Message>
    decreases |w|
  {
    if |w| >= 2 && w[0] == 13 && w[1] == 10 then
      if |w| >= 4 && w[|w| - 2..] == CRLF then Some(Message([], w[2..|w| - 2])) else None
    else
      var k := IndexOf(w, 13);
      if k < 0 || k + 1 >= |w| || w[k + 1] != 10 then None
      else
        match ReadBack(w[k + 2..])
        case None => None
        case Some(m) => Some(Message([w[..k]] + m.lines, m.body))
  }

  /** The header lines as `write` encodes them. */
  function LinesOf(headers: seq<string>): (r: seq<seq<bv8>>)
    ensures |r| == |headers|
    ensures forall i :: 0 <= i < |headers| ==> r[i] == LowBytes(headers[i])
  {
    if headers == [] then [] else [LowBytes(headers[0])] + LinesOf(headers[1..])
  }

  /** A text that holds no CR byte once written. */
  predicate CrFree(s: string) {
    forall i :: 0 <= i < |s| ==> LowByte(s[i]) != 13
  }

  /** A header line `write` can frame unambiguously: not empty, and no CR byte. */
  predicate IsLine(h: string) {
    h != [] && CrFree(h)
  }

  lemma {:induction false} HeaderBytesCons(h: string, rest: seq<string>)
    ensures HeaderBytes([h] + rest) == LowBytes(h) + CRLF + HeaderBytes(rest)
    decreases |rest|
  {
    if rest != [] {
      var init := rest[..|rest| - 1];
      assert ([h] + rest)[..|rest|] == [h] + init;
      HeaderBytesCons(h, init);
    } else {
      assert [h] + rest == [h];
      assert [h][..0] == [];
    }
  }

  lemma ReadBackOfBlankLine(b: seq<bv8>)
    ensures ReadBack(CRLF + b + CRLF) == Some(Message([], b))
  {
    var w := CRLF + b + CRLF;
    assert w[|w| - 2..] == CRLF;
    assert w[2..|w| - 2] == b;
  }

  /** A non-empty line without CR, then CRLF, is read as one header line before the rest. */
  lemma ReadBackOfLine(line: seq<bv8>, rest: seq<bv8>)
    requires line != [] && 13 !in line
    ensures ReadBack(line + CRLF + rest) ==
      match ReadBack(rest)
      case None => None
      case Some(m) => Some(Message([line] + m.lines, m.body))
  {
    var w := line + CRLF + rest;
    assert w == line + (CRLF + rest);
    IndexOfAt(line, CRLF + rest, 13);
    assert w[0] == line[0];
    assert w[|line| + 1] == 10;
    assert w[..|line|] == line;
    assert w[|line| + 2..] == rest;
  }

  /**
   * Reading back what `write` sends gives the header lines and the body,
   * provided every header is a non-empty line without CR.
   */
  lemma {:induction false} ReadBackOfWire(r: Response)
    requires forall i :: 0 <= i < |r.headers| ==> IsLine(r.headers[i])
    ensures ReadBack(Wire(r)) == Some(Message(LinesOf(r.headers), BodyBytes(r.body)))
    decreases |r.headers|
  {
    if r.headers == [] {
      ReadBackOfBlankLine(BodyBytes(r.body));
    } else {
      var h, rest := r.headers[0], r.headers[1..];
      var tail := Response(rest, r.body);
      assert r.headers == [h] + rest;
      HeaderBytesCons(h, rest);
      var lh := LowBytes(h);
      assert Wire(r) == lh + CRLF + Wire(tail);
      assert IsLine(h);
      assert 13 !in lh;
      ReadBackOfLine(lh, Wire(tail));
      ReadBackOfWire(tail);
    }
  }
}
