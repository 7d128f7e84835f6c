/**
 * What the response code promises, stated over `Respond` (the value the
 * HttpResponse constructor builds) and `Wire` (what `write` sends).
 */
module ResponseProperties {
  import opened Wrappers
  import opened JavaStrings
  import opened RequestHeaders
  import opened Request
  import opened CacheUtils
  import opened Response

  // ---------------------------------------------------------------------
  // Every response
  // ---------------------------------------------------------------------

  /**
   * The status whose line opens the response. A file or directory that
   * fails while being read still opens with 200: the 400 lines come after.
   */
  function StatusOf(req: Request, resource: Resource): Status {
    match req.httpMethod
    case HEAD => S200
    case GET =>
      (match resource
       case Directory(_) => S200
       case RegularFile(_, lastModified, etag) => OutcomeStatus(Decide(req.headers, lastModified, etag))
       case Missing => S404)
    case UNRECOGNIZED => S400
    case _ => S501
  }

  function OutcomeStatus(outcome: Outcome): Status {
    match outcome
    case PreconditionFailed => S412
    case NotModified => S304
    case NotModifiedWithETag => S304
    case Proceed => S200
  }

  lemma FileResponseOpensWithStatus(uri: string, outcome: Outcome, content: Option<seq<bv8>>, lastModified: string,
                                    etag: Option<string>, date: string)
    requires outcome != PreconditionFailed ==> etag.Some?
    ensures var r := RespondFile(uri, outcome, content, lastModified, etag, date);
      |r.headers| >= 3 && r.headers[..3] == StandardHeaders(OutcomeStatus(outcome), date)
  {
  }

  /**
   * Every response opens with the three lines `fillHeaders` adds: the status
   * line, `Date:` with the clock reading and `Server: SimpleWebServer`.
   */
  lemma ResponseOpensWithStatus(req: Request, resource: Resource, date: string)
    ensures var r := Respond(req, resource, date);
      |r.headers| >= 3 && r.headers[..3] == StandardHeaders(StatusOf(req, resource), date)
  {
    if req.httpMethod == GET {
      match resource
      case Directory(children) =>
      case RegularFile(content, lastModified, etag) =>
        var outcome := Decide(req.headers, lastModified, etag);
        FileResponseOpensWithStatus(req.uri, outcome, content, lastModified, etag, date);
      case Missing =>
    }
  }

  /**
   * HEAD answers 200 with the standard headers and no body; an unknown
   * method answers 400 and any other method but GET answers 501, each with
   * the status text as body. None of them looks at the resource.
   */
  lemma MethodDispatch(req: Request, resource: Resource, date: string)
    ensures req.httpMethod == HEAD ==>
      Respond(req, resource, date) == Response(StandardHeaders(S200, date), None)
    ensures req.httpMethod == UNRECOGNIZED ==>
      Respond(req, resource, date) == Response(StandardHeaders(S400, date), Some(LowBytes(StatusText(S400))))
    ensures req.httpMethod !in {GET, HEAD, UNRECOGNIZED} ==>
      Respond(req, resource, date) == Response(StandardHeaders(S501, date), Some(LowBytes(StatusText(S501))))
  {
  }

  /** A GET of a missing path answers 404 with the status text as body. */
  lemma MissingIs404(req: Request, date: string)
    requires req.httpMethod == GET
    ensures Respond(req, Missing, date) == Response(StandardHeaders(S404, date), Some(LowBytes(StatusText(S404))))
  {
  }

  // ---------------------------------------------------------------------
  // GET of a regular file
  // ---------------------------------------------------------------------

  /**
   * Without an If-Match header `ifMatch` is false, so a plain GET of an
   * existing file answers 412 Precondition Failed, with no body.
   */
  lemma PlainGetOfFileIs412(req: Request, content: Option<seq<bv8>>, lastModified: string, etag: Option<string>, date: string)
    requires req.httpMethod == GET && !HasHeader(req.headers, IfMatchName)
    ensures Respond(req, RegularFile(content, lastModified, etag), date) == Response(StandardHeaders(S412, date), None)
  {
    assert Decide(req.headers, lastModified, etag) == PreconditionFailed;
  }

  /**
   * The general 412: whenever `ifMatch(etag)` is false (the header is absent,
   * or present without listing the file's ETag) a GET of an existing file
   * answers 412 with no body, whatever the later headers say.
   */
  lemma IfMatchMissIs412(req: Request, content: Option<seq<bv8>>, lastModified: string, etag: Option<string>, date: string)
    requires req.httpMethod == GET && !IfMatch(req.headers, etag)
    ensures Respond(req, RegularFile(content, lastModified, etag), date) == Response(StandardHeaders(S412, date), None)
  {
    assert Decide(req.headers, lastModified, etag) == PreconditionFailed;
  }

  /** When `generateETag` returns null, no If-Match can list it: the answer is 412. */
  lemma MissingETagIs412(req: Request, content: Option<seq<bv8>>, lastModified: string, date: string)
    requires req.httpMethod == GET
    ensures Respond(req, RegularFile(content, lastModified, None), date) == Response(StandardHeaders(S412, date), None)
  {
    assert Decide(req.headers, lastModified, None) == PreconditionFailed;
  }

  /**
   * `If-Match: *` is compared as a tag like any other; a generated ETag is
   * quoted and never `*`, so the wildcard on an existing file answers 412.
   */
  lemma IfMatchWildcardOnFileIs412(req: Request, content: Option<seq<bv8>>, lastModified: string, digest: seq<bv8>, date: string)
    requires req.httpMethod == GET && IsIfMatchWildcard(req.headers)
    ensures Respond(req, RegularFile(content, lastModified, Some(ETagOf(digest))), date)
      == Response(StandardHeaders(S412, date), None)
  {
    var etag := ETagOf(digest);
    assert etag != "*" by {
      assert etag[0] == '"';
    }
    WildcardListsOnlyStar(req.headers, IfMatchName, etag);
    assert Decide(req.headers, lastModified, Some(etag)) == PreconditionFailed;
  }

  /** A header whose value is exactly a generated ETag lists that ETag: it holds no comma to split at. */
  lemma GeneratedETagListed(headers: seq<string>, name: string, digest: seq<bv8>)
    requires HeaderValue(headers, name) == Some(ETagOf(digest))
    ensures ListsTag(headers, name, Some(ETagOf(digest)))
  {
    ETagIsOneToken(digest);
  }

  /**
   * A client that sends back the ETag and Last-Modified of an earlier 200 in
   * If-Match, If-Modified-Since and If-None-Match gets 304 with the ETag.
   */
  lemma RevalidationIs304(req: Request, content: Option<seq<bv8>>, lastModified: string, digest: seq<bv8>, date: string)
    requires req.httpMethod == GET
    requires HeaderValue(req.headers, IfMatchName) == Some(ETagOf(digest))
    requires HeaderValue(req.headers, IfModifiedSinceName) == Some(lastModified)
    requires HeaderValue(req.headers, IfNoneMatchName) == Some(ETagOf(digest))
    ensures Respond(req, RegularFile(content, lastModified, Some(ETagOf(digest))), date)
      == Response(StandardHeaders(S304, date) + ["ETag: " + ETagOf(digest)], None)
  {
    GeneratedETagListed(req.headers, IfMatchName, digest);
    GeneratedETagListed(req.headers, IfNoneMatchName, digest);
    IfNoneMatchHitIs304WithETag(req, content, lastModified, ETagOf(digest), date);
  }

  /**
   * Once If-Match lists the ETag, an If-Modified-Since that is absent or not
   * textually equal to the file's date answers 304 Not Modified, with no body.
   */
  lemma UnequalIfModifiedSinceIs304(req: Request, content: Option<seq<bv8>>, lastModified: string, etag: Option<string>, date: string)
    requires req.httpMethod == GET && IfMatch(req.headers, etag)
    requires HeaderValue(req.headers, IfModifiedSinceName) != Some(lastModified)
    ensures Respond(req, RegularFile(content, lastModified, etag), date) == Response(StandardHeaders(S304, date), None)
  {
    assert Decide(req.headers, lastModified, etag) == NotModified;
  }

  /** In particular an absent If-Modified-Since header answers 304. */
  lemma AbsentIfModifiedSinceIs304(req: Request, content: Option<seq<bv8>>, lastModified: string, etag: Option<string>, date: string)
    requires req.httpMethod == GET && IfMatch(req.headers, etag)
    requires !HasHeader(req.headers, IfModifiedSinceName)
    ensures Respond(req, RegularFile(content, lastModified, etag), date) == Response(StandardHeaders(S304, date), None)
  {
    UnequalIfModifiedSinceIs304(req, content, lastModified, etag, date);
  }

  /**
   * Past If-Match and If-Modified-Since, an If-None-Match that lists the ETag
   * or is `*` answers 304 with the ETag header and no body.
   */
  lemma IfNoneMatchHitIs304WithETag(req: Request, content: Option<seq<bv8>>, lastModified: string, etag: string, date: string)
    requires req.httpMethod == GET
    requires IfMatch(req.headers, Some(etag)) && IfModifiedSince(req.headers, lastModified)
    requires IfNoneMatch(req.headers, Some(etag)) || IsIfNoneMatchWildcard(req.headers)
    ensures Respond(req, RegularFile(content, lastModified, Some(etag)), date)
      == Response(StandardHeaders(S304, date) + ["ETag: " + etag], None)
  {
    assert Decide(req.headers, lastModified, Some(etag)) == NotModifiedWithETag;
  }

  /**
   * When every check lets the request through, the answer is 200: the
   * standard headers, Last-Modified, ETag, the Content-Type if the extension
   * is known, and the file's bytes as body; if the bytes cannot be read, the
   * 400 headers follow those already added and the body is the 400 text.
   */
  lemma ProceedSendsFile(req: Request, content: Option<seq<bv8>>, lastModified: string, etag: string, date: string)
    requires req.httpMethod == GET
    requires IfMatch(req.headers, Some(etag)) && IfModifiedSince(req.headers, lastModified)
    requires !IfNoneMatch(req.headers, Some(etag)) && !IsIfNoneMatchWildcard(req.headers)
    ensures var headers := StandardHeaders(S200, date)
        + ["Last-Modified: " + lastModified, "ETag: " + etag]
        + ContentTypeHeaders(req.uri);
      Respond(req, RegularFile(content, lastModified, Some(etag)), date) ==
        if content.Some? then Response(headers, content)
        else Response(headers + StandardHeaders(S400, date), Some(LowBytes(StatusText(S400))))
  {
    assert Decide(req.headers, lastModified, Some(etag)) == Proceed;
  }

  /** A 304 or 412 never carries a body; only 200, 400, 404 and 501 do. */
  lemma ConditionalAnswersHaveNoBody(req: Request, content: Option<seq<bv8>>, lastModified: string, etag: Option<string>, date: string)
    requires req.httpMethod == GET
    ensures var r := Respond(req, RegularFile(content, lastModified, etag), date);
      r.headers[0] in {StatusLine(S304), StatusLine(S412)} <==> r.body.None?
  {
    var r := Respond(req, RegularFile(content, lastModified, etag), date);
    var outcome := Decide(req.headers, lastModified, etag);
    StatusLineIdentifiesStatus(S200, S304);
    StatusLineIdentifiesStatus(S200, S412);
    if outcome == Proceed {
      assert r.headers[0] == StatusLine(S200);
    }
  }

  // ---------------------------------------------------------------------
  // GET of a directory
  // ---------------------------------------------------------------------

  /**
   * A GET of a directory answers 200 with the HTML Content-Type, and the
   * listing holds each child's anchor in listing order; a directory that
   * cannot be listed gets the 400 headers after those.
   */
  lemma DirectoryListsEachChild(req: Request, children: seq<string>, i: nat, date: string)
    requires req.httpMethod == GET && i < |children|
    ensures var headers := StandardHeaders(S200, date) + [ContentTypeHeader(HTML)];
      Respond(req, Directory(Some(children)), date) == Response(headers, Some(LowBytes(
        ListingHead(req.uri) + Anchors(children[..i]) + Anchor(children[i]) + Anchors(children[i + 1..]) + ListingTail)))
  {
    AnchorOfEachChild(children, i);
    var h, a, b, c := ListingHead(req.uri), Anchors(children[..i]), Anchor(children[i]), Anchors(children[i + 1..]);
    assert Listing(req.uri, children) == h + (a + b + c) + ListingTail;
    assert h + (a + b + c) == h + a + b + c;
    DirectoryDispatch(req, Some(children), date);
  }

  /** A GET of a directory is answered by the directory branch. */
  lemma DirectoryDispatch(req: Request, children: Option<seq<string>>, date: string)
    requires req.httpMethod == GET
    ensures Respond(req, Directory(children), date) == RespondDirectory(req.uri, children, date)
  {
  }

  /** A directory `listFiles` cannot read: 200 and HTML headers, then the 400 headers, and the 400 text. */
  lemma UnlistableDirectoryAppends400(req: Request, date: string)
    requires req.httpMethod == GET
    ensures Respond(req, Directory(None), date) == Response(
      StandardHeaders(S200, date) + [ContentTypeHeader(HTML)] + StandardHeaders(S400, date),
      Some(LowBytes(StatusText(S400))))
  {
  }

  // ---------------------------------------------------------------------
  // Content-Type
  // ---------------------------------------------------------------------

  /** A URI `base.ext` with one dot gets the Content-Type whose name is `ext` upper-cased. */
  lemma ContentTypeOfExtension(base: string, ext: string, t: ContentType)
    requires '.' !in base && ToUpper(ext) == ContentTypeName(t)
    ensures ContentTypeHeaders(base + "." + ext) == [ContentTypeHeader(t)]
  {
    ExtensionAfterFirstDot(base, ext);
  }

  /** Every constant's name is upper-case letters. */
  lemma ContentTypeNameIsLetters(t: ContentType)
    ensures forall i :: 0 <= i < |ContentTypeName(t)| ==> 'A' <= ContentTypeName(t)[i] <= 'Z'
  {
  }

  lemma ExtensionAfterFirstDot(base: string, ext: string)
    requires '.' !in base
    ensures Extension(base + "." + ext) == ToUpper(ext)
  {
    var uri := base + "." + ext;
    assert uri == base + ("." + ext);
    IndexOfAt(base, "." + ext, '.');
    assert AfterFirst(uri, '.') == ext;
  }

  /**
   * The extension is everything after the FIRST dot, so a URI whose last
   * segment follows a second dot (`a.tar.gz`, `v1.2/page.html`) gets no
   * Content-Type at all.
   */
  lemma SecondDotLosesContentType(base: string, ext: string)
    requires '.' !in base && '.' in ext
    ensures ContentTypeHeaders(base + "." + ext) == []
  {
    var uri := base + "." + ext;
    ExtensionAfterFirstDot(base, ext);
    var k :| 0 <= k < |ext| && ext[k] == '.';
    assert Extension(uri)[k] == '.';
    forall t: ContentType
      ensures ContentTypeName(t) != Extension(uri)
    {
      ContentTypeNameIsLetters(t);
    }
  }

  // ---------------------------------------------------------------------
  // On the wire
  // ---------------------------------------------------------------------

  /** Printable ASCII, as every fixed header text is. */
  predicate Printable(s: string) {
    forall c :: c in s ==> ' ' <= c <= '~'
  }

  lemma PrintableIsCrFree(s: string)
    requires Printable(s)
    ensures CrFree(s)
  {
    forall i | 0 <= i < |s|
      ensures LowByte(s[i]) != 13
    {
      assert s[i] in s;
      assert s[i] as int % 256 == s[i] as int;
    }
  }

  /** The media types are printable; the literals are checked a few at a time. */
  lemma MimeTypePrintable(t: ContentType)
    ensures Printable(MimeType(t))
  {
    if t in {CSS, GIF, HTM} {
      MimeTypePrintableGroup1(t);
    } else if t in {HTML, ICO, JPG} {
      MimeTypePrintableGroup2(t);
    } else if t in {JPEG, JS} {
      MimeTypePrintableGroup3(t);
    } else {
      MimeTypePrintableGroup4(t);
    }
  }

  lemma MimeTypePrintableGroup1(t: ContentType)
    requires t in {CSS, GIF, HTM}
    ensures Printable(MimeType(t))
  {
  }

  lemma MimeTypePrintableGroup2(t: ContentType)
    requires t in {HTML, ICO, JPG}
    ensures Printable(MimeType(t))
  {
  }

  lemma MimeTypePrintableGroup3(t: ContentType)
    requires t in {JPEG, JS}
    ensures Printable(MimeType(t))
  {
  }

  lemma MimeTypePrintableGroup4(t: ContentType)
    requires t in {PNG, TXT, XML}
    ensures Printable(MimeType(t))
  {
  }

  /** The status texts are printable, three literals at a time. */
  lemma StatusTextPrintable(status: Status)
    ensures Printable(StatusText(status))
  {
    if status in {S200, S304, S400} {
      StatusTextPrintableLow(status);
    } else {
      StatusTextPrintableHigh(status);
    }
  }

  lemma StatusTextPrintableLow(status: Status)
    requires status in {S200, S304, S400}
    ensures Printable(StatusText(status))
  {
  }

  lemma StatusTextPrintableHigh(status: Status)
    requires status in {S404, S412, S501}
    ensures Printable(StatusText(status))
  {
  }

  lemma LineOfPrefixed(prefix: string, s: string)
    requires IsLine(prefix) && CrFree(s)
    ensures IsLine(prefix + s)
  {
    var t := prefix + s;
    forall i | 0 <= i < |t|
      ensures LowByte(t[i]) != 13
    {
      if i < |prefix| {
        assert t[i] == prefix[i];
      } else {
        assert t[i] == s[i - |prefix|];
      }
    }
  }

  lemma StatusLineIsLine(status: Status)
    ensures IsLine(StatusLine(status))
  {
    StatusTextPrintable(status);
    PrintableIsCrFree(StatusText(status));
    PrefixedIsLine(Version + " ", StatusText(status));
  }

  lemma PrefixedIsLine(prefix: string, s: string)
    requires prefix != [] && Printable(prefix) && CrFree(s)
    ensures IsLine(prefix + s)
  {
    PrintableIsCrFree(prefix);
    LineOfPrefixed(prefix, s);
  }

  /** The headers of a 200 answer to a file GET. */
  function ProceedHeaders(uri: string, lastModified: string, etag: string, date: string): seq<string> {
    StandardHeaders(S200, date) + ["Last-Modified: " + lastModified, "ETag: " + etag] + ContentTypeHeaders(uri)
  }

  predicate AllLines(headers: seq<string>) {
    forall i :: 0 <= i < |headers| ==> IsLine(headers[i])
  }

  lemma AllLinesAppend(a: seq<string>, b: seq<string>)
    requires AllLines(a) && AllLines(b)
    ensures AllLines(a + b)
  {
    forall i | 0 <= i < |a + b|
      ensures IsLine((a + b)[i])
    {
      if i >= |a| {
        assert (a + b)[i] == b[i - |a|];
      }
    }
  }

  lemma StandardHeadersAreLines(status: Status, date: string)
    requires CrFree(date)
    ensures AllLines(StandardHeaders(status, date))
  {
    StatusLineIsLine(status);
    PrefixedIsLine("Date: ", date);
    assert Printable(ServerHeader);
    PrintableIsCrFree(ServerHeader);
  }

  lemma ContentTypeHeadersAreLines(uri: string)
    ensures AllLines(ContentTypeHeaders(uri))
  {
    match ContentTypeValueOf(Extension(uri))
    case None =>
    case Some(t) =>
      ContentTypeHeaderIsLine(t);
  }

  lemma ProceedHeadersAreLines(uri: string, lastModified: string, etag: string, date: string)
    requires CrFree(date) && CrFree(lastModified) && CrFree(etag)
    ensures AllLines(ProceedHeaders(uri, lastModified, etag, date))
  {
    var cache := ["Last-Modified: " + lastModified, "ETag: " + etag];
    StandardHeadersAreLines(S200, date);
    PrefixedIsLine("Last-Modified: ", lastModified);
    PrefixedIsLine("ETag: ", etag);
    assert AllLines(cache);
    AllLinesAppend(StandardHeaders(S200, date), cache);
    ContentTypeHeadersAreLines(uri);
    AllLinesAppend(StandardHeaders(S200, date) + cache, ContentTypeHeaders(uri));
  }

  /**
   * A 200 answer to a file GET, written and read back, gives the same header
   * lines in the same order and exactly the file's bytes as body (given a
   * clock text, a modification date and an ETag without CR).
   */
  lemma FileGetRoundTrip(req: Request, content: seq<bv8>, lastModified: string, etag: string, date: string)
    requires req.httpMethod == GET
    requires Decide(req.headers, lastModified, Some(etag)) == Proceed
    requires CrFree(date) && CrFree(lastModified) && CrFree(etag)
    ensures var r := Respond(req, RegularFile(Some(content), lastModified, Some(etag)), date);
      ReadBack(Wire(r)) == Some(Message(LinesOf(r.headers), content))
  {
    var r := Respond(req, RegularFile(Some(content), lastModified, Some(etag)), date);
    assert r == Response(ProceedHeaders(req.uri, lastModified, etag, date), Some(content));
    ProceedHeadersAreLines(req.uri, lastModified, etag, date);
    ReadBackOfWire(r);
  }

  lemma ContentTypeHeaderIsLine(t: ContentType)
    ensures IsLine(ContentTypeHeader(t))
  {
    MimeTypePrintable(t);
    PrintableIsCrFree(MimeType(t));
    PrefixedIsLine("Content-Type: ", MimeType(t));
  }
}
