# java-WebServer HTTP core, modelled in Dafny

This project models the protocol logic of boris-paris/java-WebServer, a small static-file HTTP/1.0 server written in Java. Four parts are modelled:

- **HttpRequest.** The request line is split on whitespace runs into method, URI and version (section 5.1 of RFC 2616). Unknown methods fall back to `UNRECOGNIZED`. Header lines are stored verbatim up to and including the first empty line. A header is found by a case-sensitive prefix match, and the first match wins. The `ifModifiedSince`, `ifMatch`, `ifNoneMatch` and wildcard queries are built on that lookup.
- **HttpResponse.** The constructor picks a status from the method and the resource, and builds an ordered header list and a body. For files it applies If-Match, If-Modified-Since and If-None-Match in that order. `write` frames the header list and body with CRLFs.
- **CacheUtils.generateETag.** A loop reads the file byte by byte. The MD5 digest is read as an unsigned big-endian number, written in lower-case hex and wrapped in quotes (the opaque-tag form of section 14.19 of RFC 2616).
- **WebServer.getValidPortParam.** This picks the listening port from the command-line arguments.

The filesystem, the clock and MD5 are inputs:

- A `Resource` value stands for what `new File(rootPath + uri)` finds. It has three cases:
  - `RegularFile`: the file's bytes, or `None` when they cannot be read; its Last-Modified text; and what `generateETag` returned.
  - `Directory`: the child paths, or `None` when they cannot be listed.
  - `Missing`.
- The `Date:` text is a parameter.
- MD5 is a function parameter, which is `None` when no MD5 implementation is available.

Code that mutates objects is imperative Dafny:

- `HttpRequest` and `HttpResponse` are classes whose methods append to a `headers` field.
- The constructor loop, the directory listing, the ETag read loop and `write` are `while`/`for` loops.
- Each method is proved equal to a specification function: `Parse`, `Respond`, `Listing`, `ETagFor` and `Wire`.
- The properties are lemmas about those functions.

Files:

| file | module | contents |
|---|---|---|
| `wrappers.dfy` | `Wrappers` | `Option`, `Result` |
| `java_strings.dfy` | `JavaStrings` | the `java.lang.String` behaviour the code depends on: `startsWith`, `indexOf`, `trim`, `split` with limit 0, `toUpperCase`, and the low-byte encoding of `writeBytes` |
| `request_headers.dfy` | `RequestHeaders` | header lookup and the conditional queries |
| `http_request.dfy` | `Request` | request-line parsing, the `HttpRequest` class, and the cases from `IfMatchTest` |
| `cache_utils.dfy` | `CacheUtils` | hex rendering, the ETag, the `ByteStream` class and the read loop |
| `http_response.dfy` | `Response` | `Status`, `ContentType`, `Respond`, the `HttpResponse` class, the wire format and reading it back |
| `response_properties.dfy` | `ResponseProperties` | the status decisions, listing, Content-Type and round-trip lemmas |
| `web_server.dfy` | `WebServer` | `Integer.parseInt` and `getValidPortParam` |

## Behaviour as written

The model follows the code where it departs from its comments or from the HTTP standard. Each departure is stated as a lemma.

- **If-Match absent.** An absent If-Match makes `ifMatch` false, so a plain GET of an existing file answers 412 (`PlainGetOfFileIs412`). In general every GET of a file whose If-Match does not list its ETag answers 412 (`IfMatchMissIs412`).
- **If-Modified-Since.** An absent or textually different If-Modified-Since answers 304 once If-Match has passed (`UnequalIfModifiedSinceIs304`, `AbsentIfModifiedSinceIs304`).
- **`If-Match: *`.** It is compared as an ordinary tag, so on an existing file it answers 412 (`IfMatchWildcardOnFileIs412`).
- **Tag lists.** Tags in an If-Match / If-None-Match list are not trimmed. After `a, b`, the second tag is `" b"` (`IfMatchTestMultipleTags`).
- **Content-Type extension.** The extension is everything after the *first* dot of the URI, upper-cased. `a.tar.gz` gets no Content-Type (`SecondDotLosesContentType`).
- **Read errors after a 200.** A file or directory that fails while being read still opens with the 200 status line, followed by the 400 lines (`ProceedSendsFile`, `UnlistableDirectoryAppends400`, `StatusOf`).
- **Port 65535.** It is refused, although the doc comment of `getValidPortParam` says the range ends at 65535 (`OutOfRangePortRejected`).
- **Leading whitespace on the request line.** `split("\\s+")` then yields an empty first token, so the tokens shift: `" GET / HTTP/1.0"` is read as method UNRECOGNIZED, URI `GET` and version `/`, and answers 400 (`RequestLineOfWords`, `LeadingSpaceShiftsTokens`).
- **Blank request line.** An empty or whitespace-only first line is not skipped (section 4.1 of RFC 2616 asks servers to ignore such lines): it splits into fewer than three pieces and the request fails with the short-line error (`SplitWhitespaceOfBlank`, `BlankRequestLineIsShort`).
- **Version.** Every response says `HTTP/1.0`, whatever version the request gave.

## Model

| member | source | states |
|---|---|---|
| JavaStrings.IndexOf | src/main/java/com/dasanjos/java/http/HttpRequest.java:70 | `indexOf`: -1 exactly when the char is absent, otherwise the first index where it occurs |
| JavaStrings.IndexOfAt | src/main/java/com/dasanjos/java/http/HttpRequest.java:70 | the first occurrence in `x + y` is the head of `y` when `x` has none |
| JavaStrings.AfterFirst | src/main/java/com/dasanjos/java/http/HttpRequest.java:70 | `substring(indexOf(c) + 1)` is the whole string when `c` is absent, otherwise the text after the first `c` |
| JavaStrings.Trim | src/main/java/com/dasanjos/java/http/HttpRequest.java:70 | `trim` removes exactly the leading and trailing chars up to U+0020; the result is empty or neither starts nor ends with one |
| JavaStrings.TrimOfPadded | src/main/java/com/dasanjos/java/http/HttpRequest.java:70 | trimming padding around a text that starts and ends with a non-blank char gives back that text |
| JavaStrings.ToUpper | src/main/java/com/dasanjos/java/http/HttpResponse.java:193 | `toUpperCase` on ASCII: same length, each lower-case letter raised and every other char kept |
| JavaStrings.Fields | src/main/java/com/dasanjos/java/http/HttpRequest.java:116 | splitting at every separator gives at least one piece, no piece holds a separator, and a text without one is its own single piece |
| JavaStrings.FieldsOfJoin | src/main/java/com/dasanjos/java/http/HttpRequest.java:116 | joining separator-free pieces and splitting again gives the pieces back |
| JavaStrings.JoinOfFields | src/main/java/com/dasanjos/java/http/HttpRequest.java:116 | splitting and joining again gives the text back |
| JavaStrings.SplitComma | src/main/java/com/dasanjos/java/http/HttpRequest.java:116 | `split(",")`: no piece holds a comma (the exact pieces are stated by `SplitCommaOfJoin`) |
| JavaStrings.SplitCommaOfJoin | src/main/java/com/dasanjos/java/http/HttpRequest.java:116 | a comma-joined list splits back into exactly its items less any empty items at its end (`"a",` gives `["a"]`); a single item comes back as it is, even the empty one |
| JavaStrings.SplitWhitespace | src/main/java/com/dasanjos/java/http/HttpRequest.java:44 | `split("\\s+")`: tokens hold no whitespace, and only the first token can be empty (leading whitespace); the exact tokens are stated by `SplitWhitespaceOfWords` for text holding at least one word and by `SplitWhitespaceOfBlank` for blank text |
| JavaStrings.SplitWhitespaceOfBlank | src/main/java/com/dasanjos/java/http/HttpRequest.java:44 | the empty text splits into `[""]`; a text of whitespace only splits into no tokens |
| JavaStrings.SplitWhitespaceOfWords | src/main/java/com/dasanjos/java/http/HttpRequest.java:44 | any number n >= 1 of whitespace-free words separated by non-empty whitespace runs, with optional runs before and after, split into exactly those words; a leading run adds one empty first token |
| JavaStrings.LowBytes | src/main/java/com/dasanjos/java/http/HttpResponse.java:180 | `writeBytes` sends one byte per char, the low eight bits of that char |
| JavaStrings.LowBytesAppend | src/main/java/com/dasanjos/java/http/HttpResponse.java:180 | the bytes of a concatenation are the concatenation of the bytes |
| RequestHeaders.FirstMatch | src/main/java/com/dasanjos/java/http/HttpRequest.java:69 | `findFirst` over `startsWith(name)`: the first matching line, or none when no line matches |
| RequestHeaders.HasHeader | src/main/java/com/dasanjos/java/http/HttpRequest.java:64-66 | holds exactly when some stored line starts with the name (case-sensitive) |
| RequestHeaders.HeaderValue | src/main/java/com/dasanjos/java/http/HttpRequest.java:68-71 | absent exactly when no line matches; otherwise the trimmed text after the first ':' of the first matching line |
| RequestHeaders.IfModifiedSince | src/main/java/com/dasanjos/java/http/HttpRequest.java:101-106 | true exactly when the header is present and its value equals the date character for character |
| RequestHeaders.ListsTag | src/main/java/com/dasanjos/java/http/HttpRequest.java:115-124 | `ifMatch` / `ifNoneMatch`: true only when the header is present and the tag is non-null and comma-free |
| RequestHeaders.IsWildcard | src/main/java/com/dasanjos/java/http/HttpRequest.java:126-131 | `isIfMatchWildcard` / `isIfNoneMatchWildcard`: true exactly when the header is present with value `*` |
| RequestHeaders.HeaderValueOfLine | src/main/java/com/dasanjos/java/http/HttpRequest.java:68-71 | a line `name: value` read by the first match gives back `value` |
| RequestHeaders.ListsTagOfList | src/main/java/com/dasanjos/java/http/HttpRequest.java:140-149 | for a comma-separated value, a non-empty tag is listed exactly when it equals one of the untrimmed items; with two or more items, the empty tag is listed only when an empty item comes before the last non-empty one |
| RequestHeaders.WildcardListsOnlyStar | src/main/java/com/dasanjos/java/http/HttpRequest.java:119-131 | when the value is `*`, the only tag listed is `*` |
| RequestHeaders.AbsentHeaderQueriesAreFalse | src/main/java/com/dasanjos/java/http/HttpRequest.java:101-156 | with none of the three headers present, every conditional query is false |
| Request.ParseMethod | src/main/java/com/dasanjos/java/http/HttpRequest.java:45-49 | `Method.valueOf` gives the constant of that name, or `UNRECOGNIZED` exactly when no constant has that name |
| Request.RequestLineOf | src/main/java/com/dasanjos/java/http/HttpRequest.java:42-52 | the request line parses exactly when `split("\\s+")` gives at least three pieces (a leading empty piece counts); otherwise the error is the short line |
| Request.HeaderBlock | src/main/java/com/dasanjos/java/http/HttpRequest.java:36-39 | the stored lines are a prefix of the remaining lines that ends at the first empty line; none when no line is empty |
| Request.HeaderBlockIsFirstEmpty | src/main/java/com/dasanjos/java/http/HttpRequest.java:36-39 | the block is exactly the lines up to and including the first empty one |
| Request.HttpRequest.ParseRequestLine | src/main/java/com/dasanjos/java/http/HttpRequest.java:42-52 | assigns method, URI and version from tokens 0, 1 and 2, or reports the short line; headers unchanged |
| Request.HttpRequest.ParseRequestHeader | src/main/java/com/dasanjos/java/http/HttpRequest.java:54-57 | appends the line verbatim at the end of the headers |
| Request.HttpRequest.ReadHeaders | src/main/java/com/dasanjos/java/http/HttpRequest.java:36-39 | the loop succeeds exactly when an empty line comes, and then the headers are the header block |
| Request.HttpRequest.Read | src/main/java/com/dasanjos/java/http/HttpRequest.java:31-40 | the constructor builds a fresh object holding `Parse(lines)`, or fails with the same error |
| Request.ParseCharacterized | src/main/java/com/dasanjos/java/http/HttpRequest.java:31-57 | parsing succeeds exactly when there is a first line whose whitespace split has at least three pieces and a later empty line. The headers are then the following lines up to the first empty one, verbatim and in order, and the method, URI and version are pieces 0, 1 and 2 of that split |
| Request.RequestLineOfWords | src/main/java/com/dasanjos/java/http/HttpRequest.java:42-52 | for one or more tokens separated by whitespace runs: three or more give method, URI and version from the first three and ignore the rest, fewer is the short-line error; with whitespace before the first token the pieces shift by one (method UNRECOGNIZED, URI the first token, version the second), and fewer than two tokens is the short-line error |
| Request.BlankRequestLineIsShort | src/main/java/com/dasanjos/java/http/HttpRequest.java:30-52 | an empty or whitespace-only request line is the short-line error, both for the line and for the whole request |
| Request.OneTokenIsShort | src/main/java/com/dasanjos/java/http/HttpRequest.java:42-52 | a line of one token, such as `GET`, is the short-line error |
| Request.TwoTokensAreShort | src/main/java/com/dasanjos/java/http/HttpRequest.java:42-52 | a line of two tokens, such as `GET /`, is the short-line error |
| Request.FourthTokenIgnored | src/main/java/com/dasanjos/java/http/HttpRequest.java:42-52 | a fourth token is ignored: method, URI and version are the first three |
| Request.LeadingSpaceShiftsTokens | src/main/java/com/dasanjos/java/http/HttpRequest.java:42-52 | `" GET / HTTP/1.0"` is read as method UNRECOGNIZED, URI `GET`, version `/` |
| Request.RequestLineRoundTrip | src/main/java/com/dasanjos/java/http/HttpRequest.java:42-52 | `METHOD uri version` parses to exactly that method, URI and version |
| Request.MethodNameToken | src/main/java/com/dasanjos/java/http/HttpRequest.java:46 | every method name is one token, and `valueOf` maps it back to its constant |
| Request.UnknownMethodIsUnrecognized | src/main/java/com/dasanjos/java/http/HttpRequest.java:45-49 | a token that names no method yields `UNRECOGNIZED`, and the line still parses |
| Request.IfMatchRequestParse | src/test/java/paris/boris/java/http/IfMatchTest.java:14 | the test request parses to a GET whose headers are the If-Match line and the empty line, and the header reads back its value |
| Request.HeaderBlockOfOne | src/main/java/com/dasanjos/java/http/HttpRequest.java:36-39 | one header line then an empty line gives exactly those two lines |
| Request.IfMatchLine | src/test/java/paris/boris/java/http/IfMatchTest.java:27 | the line `If-Match: value` reads back as `value` |
| Request.IfMatchTestMultipleTags | src/test/java/paris/boris/java/http/IfMatchTest.java:12-48 | with `If-Match: t1, t2, t3` a tag matches exactly when it is `t1`, `" " + t2` or `" " + t3` |
| Request.IfMatchTestSingleTag | src/test/java/paris/boris/java/http/IfMatchTest.java:25-61 | with `If-Match: t` a tag matches exactly when it is `t` |
| Request.SingleTagListed | src/main/java/com/dasanjos/java/http/HttpRequest.java:115-124 | with the single header `If-Match: t`, a tag is listed exactly when it equals `t` |
| Request.IfMatchTestWildcard | src/test/java/paris/boris/java/http/IfMatchTest.java:64-74 | with `If-Match: *` the wildcard test holds and only `*` matches |
| CacheUtils.HexDigit | src/main/java/paris/boris/java/http/util/CacheUtils.java:58 | each digit value below 16 gets a lower-case hex digit that reads back as that value |
| CacheUtils.Hex | src/main/java/paris/boris/java/http/util/CacheUtils.java:58 | `toString(16)`: non-empty lower-case hex digits, with a leading '0' exactly for zero, and "0" for zero |
| CacheUtils.HexRoundTrip | src/main/java/paris/boris/java/http/util/CacheUtils.java:57-58 | reading the hex digits back gives the number |
| CacheUtils.HexLength | src/main/java/paris/boris/java/http/util/CacheUtils.java:58 | a number below 16^k takes at most k digits |
| CacheUtils.BigEndianBound | src/main/java/paris/boris/java/http/util/CacheUtils.java:57 | an unsigned number of m bytes is below 16^(2m) |
| CacheUtils.BigEndianInjective | src/main/java/paris/boris/java/http/util/CacheUtils.java:57 | two byte strings of one length denote the same number only when they are equal |
| CacheUtils.HexBound | src/main/java/paris/boris/java/http/util/CacheUtils.java:56-58 | a digest of m >= 1 bytes renders in at most 2m digits |
| CacheUtils.ETagOf | src/main/java/paris/boris/java/http/util/CacheUtils.java:56-58 | the tag starts and ends with '"'. Between the quotes are hex digits denoting the digest read unsigned, with no leading zero unless the digest is zero, and a zero digest (any length) gives `"0"`. It has at most 2m+2 chars |
| CacheUtils.ETagIdentifiesDigest | src/main/java/paris/boris/java/http/util/CacheUtils.java:56-58 | for digests of one length, equal tags exactly when equal digests |
| CacheUtils.ETagIsOneToken | src/main/java/paris/boris/java/http/util/CacheUtils.java:58 | a tag has no comma and no whitespace, is already trimmed, and has no quote inside |
| CacheUtils.ByteStream.constructor | src/main/java/paris/boris/java/http/util/CacheUtils.java:46 | opens the stream at position 0 over the file's bytes |
| CacheUtils.ByteStream.Read | src/main/java/paris/boris/java/http/util/CacheUtils.java:51 | `read()` gives the next byte as 0..255 and advances, gives -1 at the end, or throws where the stream fails |
| CacheUtils.ByteChars | src/main/java/paris/boris/java/http/util/CacheUtils.java:49-53 | one char per byte, in order, with the byte's value |
| CacheUtils.GenerateETag | src/main/java/paris/boris/java/http/util/CacheUtils.java:45-66 | the loop reads every byte until -1. The result is the tag of the digest of exactly the file's bytes; it is null on an I/O error or when MD5 is unavailable |
| CacheUtils.CharBytesOfByteChars | src/main/java/paris/boris/java/http/util/CacheUtils.java:56 | `getBytes` of the buffered chars gives the file's bytes back |
| Response.StatusLine | src/main/java/com/dasanjos/java/http/HttpResponse.java:164 | the status line starts with `HTTP/1.0 ` |
| Response.StatusLineIdentifiesStatus | src/main/java/com/dasanjos/java/http/HttpResponse.java:164 | distinct statuses have distinct codes and distinct status lines |
| Response.ContentTypeValueOf | src/main/java/com/dasanjos/java/http/HttpResponse.java:193 | `ContentType.valueOf` gives the constant of that name, and fails exactly when no constant has it |
| Response.ContentTypeNamesRoundTrip | src/main/java/com/dasanjos/java/http/HttpResponse.java:193 | `valueOf` maps every constant's name back to that constant |
| Response.ContentTypeHeaders | src/main/java/com/dasanjos/java/http/HttpResponse.java:190-197 | adds nothing exactly when no constant is named by the upper-cased text after the first '.'; otherwise adds that constant's line |
| Response.AnchorsAppend | src/main/java/com/dasanjos/java/http/HttpResponse.java:53-59 | the anchors of two child lists are the anchors of each, in order |
| Response.AnchorOfEachChild | src/main/java/com/dasanjos/java/http/HttpResponse.java:53-59 | each child's anchor stands between those of the children before it and those after it |
| Response.AppendAnchor | src/main/java/com/dasanjos/java/http/HttpResponse.java:54-58 | the five appends of one loop turn add exactly that child's anchor line |
| Response.DirectoryListing | src/main/java/com/dasanjos/java/http/HttpResponse.java:45-60 | the StringBuilder loop builds exactly the listing page: head, one anchor per child in order, tail |
| Response.Decide | src/main/java/com/dasanjos/java/http/HttpResponse.java:73-115 | the checks in the code's order, each outcome given exactly: 412 when `ifMatch(etag)` is false; else 304 when `ifModifiedSince` is false; else 304 with the ETag when If-None-Match lists the ETag or is `*`; else 200. Every outcome past 412 has a non-null ETag |
| Response.HttpResponse.constructor | src/main/java/com/dasanjos/java/http/HttpResponse.java:31-144 | the object holds `Respond` of the request, the resource and the date |
| Response.HttpResponse.Get | src/main/java/com/dasanjos/java/http/HttpResponse.java:37-134 | the GET block builds the directory, file or 404 answer |
| Response.HttpResponse.GetDirectory | src/main/java/com/dasanjos/java/http/HttpResponse.java:42-62 | 200 and the HTML Content-Type, then the listing, or the 400 lines and text when the listing is null |
| Response.HttpResponse.GetFile | src/main/java/com/dasanjos/java/http/HttpResponse.java:73-122 | the 412 / 304 / 304 + ETag / 200 branches; for 200, Last-Modified, ETag, the Content-Type and the bytes, or the 400 lines when they cannot be read |
| Response.HttpResponse.FillHeaders | src/main/java/com/dasanjos/java/http/HttpResponse.java:163-167 | appends exactly the status line, the Date line and the Server line; body unchanged |
| Response.HttpResponse.FillResponseText | src/main/java/com/dasanjos/java/http/HttpResponse.java:169-171 | the body becomes the text's bytes; headers unchanged |
| Response.HttpResponse.FillResponse | src/main/java/com/dasanjos/java/http/HttpResponse.java:173-175 | the body becomes the given bytes; headers unchanged |
| Response.HttpResponse.SetContentType | src/main/java/com/dasanjos/java/http/HttpResponse.java:190-197 | appends the Content-Type line for the URI's extension, or nothing |
| Response.HttpResponse.Write | src/main/java/com/dasanjos/java/http/HttpResponse.java:177-188 | the loop sends each header then CRLF, then CRLF, the body if any, and a closing CRLF |
| Response.LowBytesOfCRLF | src/main/java/com/dasanjos/java/http/HttpResponse.java:180-182 | `"\r\n"` is written as bytes 13, 10 |
| Response.LinesOf | src/main/java/com/dasanjos/java/http/HttpResponse.java:179-181 | one byte line per header, in order |
| Response.HeaderBytesCons | src/main/java/com/dasanjos/java/http/HttpResponse.java:179-181 | the first header's line is written first |
| Response.ReadBackOfBlankLine | src/main/java/com/dasanjos/java/http/HttpResponse.java:182-186 | after the blank line, the body is what lies before the closing CRLF |
| Response.ReadBackOfLine | src/main/java/com/dasanjos/java/http/HttpResponse.java:180 | a line without CR followed by CRLF is read back as one header line |
| Response.ReadBackOfWire | src/main/java/com/dasanjos/java/http/HttpResponse.java:177-188 | reading the written bytes back gives every header line in order and the body, when no header is empty or holds CR |
| ResponseProperties.FileResponseOpensWithStatus | src/main/java/com/dasanjos/java/http/HttpResponse.java:73-122 | each file outcome opens with the standard lines of its status |
| ResponseProperties.ResponseOpensWithStatus | src/main/java/com/dasanjos/java/http/HttpResponse.java:31-167 | every response opens with the status line, `Date:` and `Server: SimpleWebServer`, for the status of its branch |
| ResponseProperties.MethodDispatch | src/main/java/com/dasanjos/java/http/HttpResponse.java:33-36 | HEAD answers 200 with only the standard headers and no body. UNRECOGNIZED answers 400, and any method other than GET 501, each with the status text as body |
| ResponseProperties.MissingIs404 | src/main/java/com/dasanjos/java/http/HttpResponse.java:123-127 | a GET of a missing path answers 404 with the status text as body |
| ResponseProperties.IfMatchMissIs412 | src/main/java/com/dasanjos/java/http/HttpResponse.java:73-77 | a GET of an existing file whose If-Match is absent or does not list the file's ETag answers 412 with no body, whatever the later headers say |
| ResponseProperties.PlainGetOfFileIs412 | src/main/java/com/dasanjos/java/http/HttpResponse.java:73-77 | a GET of an existing file without If-Match answers 412 with no body |
| ResponseProperties.MissingETagIs412 | src/main/java/com/dasanjos/java/http/HttpResponse.java:73-77 | when `generateETag` returns null, the answer is 412 |
| ResponseProperties.IfMatchWildcardOnFileIs412 | src/main/java/com/dasanjos/java/http/HttpResponse.java:73-77 | `If-Match: *` against an existing file with a generated ETag answers 412 |
| ResponseProperties.GeneratedETagListed | src/main/java/com/dasanjos/java/http/HttpRequest.java:115-124 | a header whose value is a generated ETag lists that ETag |
| ResponseProperties.RevalidationIs304 | src/main/java/com/dasanjos/java/http/HttpResponse.java:73-115 | sending back the ETag and Last-Modified of a 200 answers 304 with the ETag |
| ResponseProperties.UnequalIfModifiedSinceIs304 | src/main/java/com/dasanjos/java/http/HttpResponse.java:88-91 | past If-Match, an If-Modified-Since absent or not equal to the file's date answers 304 with no body |
| ResponseProperties.AbsentIfModifiedSinceIs304 | src/main/java/com/dasanjos/java/http/HttpResponse.java:88-91 | past If-Match, an absent If-Modified-Since answers 304 |
| ResponseProperties.IfNoneMatchHitIs304WithETag | src/main/java/com/dasanjos/java/http/HttpResponse.java:110-115 | past both earlier checks, an If-None-Match listing the ETag or `*` answers 304 with exactly one extra `ETag:` line and no body |
| ResponseProperties.ProceedSendsFile | src/main/java/com/dasanjos/java/http/HttpResponse.java:117-132 | past all checks, 200 with Last-Modified, ETag, the Content-Type if known, and the file bytes. An unreadable file gets the 400 lines after those, and the 400 text |
| ResponseProperties.ConditionalAnswersHaveNoBody | src/main/java/com/dasanjos/java/http/HttpResponse.java:73-122 | for a file GET, the body is null exactly when the status is 304 or 412 |
| ResponseProperties.DirectoryListsEachChild | src/main/java/com/dasanjos/java/http/HttpResponse.java:42-62 | a directory answers 200 with the HTML Content-Type, and its body holds every child's anchor at its place in listing order |
| ResponseProperties.DirectoryDispatch | src/main/java/com/dasanjos/java/http/HttpResponse.java:37-42 | a GET of a directory is answered by the directory branch, whatever the headers |
| ResponseProperties.UnlistableDirectoryAppends400 | src/main/java/com/dasanjos/java/http/HttpResponse.java:42-53 | a directory that cannot be listed keeps the 200 and HTML lines, then gets the 400 lines and the 400 text |
| ResponseProperties.ContentTypeOfExtension | src/main/java/com/dasanjos/java/http/HttpResponse.java:190-197 | a URI `base.ext` with one dot gets the type named by `ext` upper-cased |
| ResponseProperties.ContentTypeNameIsLetters | src/main/java/com/dasanjos/java/http/HttpResponse.java:193 | every constant name is upper-case letters |
| ResponseProperties.ExtensionAfterFirstDot | src/main/java/com/dasanjos/java/http/HttpResponse.java:192 | the extension is the upper-cased text after the first dot |
| ResponseProperties.SecondDotLosesContentType | src/main/java/com/dasanjos/java/http/HttpResponse.java:190-197 | a dot in what follows the first dot means no Content-Type at all |
| ResponseProperties.PrintableIsCrFree | src/main/java/com/dasanjos/java/http/HttpResponse.java:180 | printable ASCII writes no CR byte |
| ResponseProperties.StatusTextPrintable | src/main/java/com/dasanjos/java/http/HttpResponse.java:164 | every status text is printable ASCII |
| ResponseProperties.MimeTypePrintable | src/main/java/com/dasanjos/java/http/HttpResponse.java:193 | every media type is printable ASCII |
| ResponseProperties.LineOfPrefixed | src/main/java/com/dasanjos/java/http/HttpResponse.java:180 | a header line followed by CR-free text is still a header line |
| ResponseProperties.PrefixedIsLine | src/main/java/com/dasanjos/java/http/HttpResponse.java:119-120 | a printable label followed by CR-free text is a header line |
| ResponseProperties.StatusLineIsLine | src/main/java/com/dasanjos/java/http/HttpResponse.java:164 | every status line is a header line |
| ResponseProperties.AllLinesAppend | src/main/java/com/dasanjos/java/http/HttpResponse.java:179-181 | two lists of header lines concatenate into one |
| ResponseProperties.StandardHeadersAreLines | src/main/java/com/dasanjos/java/http/HttpResponse.java:163-167 | the standard headers are header lines when the date has no CR |
| ResponseProperties.ContentTypeHeadersAreLines | src/main/java/com/dasanjos/java/http/HttpResponse.java:190-197 | the Content-Type header, if any, is a header line |
| ResponseProperties.ContentTypeHeaderIsLine | src/main/java/com/dasanjos/java/http/HttpResponse.java:193 | every Content-Type line is a header line |
| ResponseProperties.ProceedHeadersAreLines | src/main/java/com/dasanjos/java/http/HttpResponse.java:117-121 | the headers of a 200 are header lines when date, Last-Modified and ETag have no CR |
| ResponseProperties.FileGetRoundTrip | src/main/java/com/dasanjos/java/http/HttpResponse.java:117-188 | a 200 file answer, written and read back, gives the same header lines in order and exactly the file's bytes |
| WebServer.ParseInt | src/main/java/com/dasanjos/java/WebServer.java:49 | `Integer.parseInt` succeeds exactly on a numeral (a digit or a sign, then only digits, at least one digit) whose value lies in the `int` range, and returns that value; anything else is NumberFormatException |
| WebServer.Decimal | src/main/java/com/dasanjos/java/WebServer.java:49 | non-empty decimal digits, with no leading zero except for zero |
| WebServer.DecimalValue | src/main/java/com/dasanjos/java/WebServer.java:49 | decimal digits read back give the number |
| WebServer.ParseIntOfDecimal | src/main/java/com/dasanjos/java/WebServer.java:49 | every `int` written in decimal, with '-' when negative, parses to itself |
| WebServer.GetValidPortParam | src/main/java/com/dasanjos/java/WebServer.java:47-57 | 8080 without arguments. Any result is in 1024..65534 and is the parse of `args[0]`, and every `args[0]` that parses into that range is accepted |
| WebServer.OnlyFirstArgumentCounts | src/main/java/com/dasanjos/java/WebServer.java:48-49 | arguments after the first change nothing |
| WebServer.ValidPortAccepted | src/main/java/com/dasanjos/java/WebServer.java:50-51 | a port in 1024..65534, written in decimal, is returned as given |
| WebServer.OutOfRangePortRejected | src/main/java/com/dasanjos/java/WebServer.java:50-53 | a number below 1024 or from 65535 up (65535 included) raises NumberFormatException |
| WebServer.NonNumericRejected | src/main/java/com/dasanjos/java/WebServer.java:49 | any first argument that is not a numeral (empty, a sign alone, a bad first char, or a non-digit later as in `8080x`) raises NumberFormatException |

## Left out

- **Sockets and threads.** `WebServer.start`, `main`, the thread pool and `RequestHandler` are socket and thread plumbing. `RequestHandler` calls a two-argument `HttpRequest` constructor and `isKeepAlive()`, and neither is part of this model: there is no source for keep-alive.
- **Reading lines.** The request arrives as a sequence of lines already split. `BufferedReader` decoding and line terminators are not modelled. A `readLine()` that returns null becomes the `NoRequestLine` or `UnterminatedHeaders` error instead of a NullPointerException.
- **The filesystem.** `rootPath`, `File.isDirectory`, `exists`, `listFiles` and `lastModified` are replaced by the `Resource` input. The path is `rootPath + uri` joined without any normalisation (so `..` segments reach outside the root); which file it names is outside the model.
- **Reading file bytes.** `getBytes` (the `(int) file.length()` cast and the offset loop) is reduced to "the file's bytes, or an IOException".
- **Repeated `generateETag` and `generateLastModified` calls.** The code calls `generateETag` up to three times per request, and `generateLastModified` twice: once for the If-Modified-Since test (HttpResponse.java:88) and once for the Last-Modified header (HttpResponse.java:119). The model uses one value of each, so a file that changes between the calls is not modelled.
- **MD5.** The digest is a function parameter. The platform charset in `buffer.toString().getBytes()` and `String.getBytes()` is taken as one byte per char (the low eight bits).
- **Clock and dates.** `generateLastModified` and the `Date:` header (clock, time zone, RFC 1123 formatting) are opaque strings.
- Response.Respond: one `Date:` text serves every `fillHeaders` call of a response; the code reads the clock at each call.
- **Unreachable `file.exists()` tests.** `isIfMatchWildcard() && !file.exists()` is asked inside the branch where the file exists, so it is always false and the model leaves it out. The `file.exists()` in the If-None-Match test is always true there.
- Request.ParseMethod: the Method enum is not part of this model's source; its constants are assumed to be the RFC 2616 methods OPTIONS, GET, HEAD, POST, PUT, DELETE, TRACE and CONNECT, plus UNRECOGNIZED. That set decides whether a token such as `PATCH` answers 400 (UNRECOGNIZED) or 501.
- **Status and ContentType enums.** They are not part of this model's source. The status texts are the RFC 2616 reason phrases. The Content-Type constants and their header lines are an assumed table: CSS, GIF, HTM, HTML, ICO, JPG, JPEG, JS, PNG, TXT, XML.
- **Logging.** Log4j calls are left out.
- JavaStrings.ToUpper: models `toUpperCase` on ASCII letters only; other letters are left unchanged.
- WebServer.ParseInt: models `Integer.parseInt` on ASCII digits only; Java also accepts other Unicode decimal digits.
- **Exceptions.** Exceptions other than those the code catches or declares (for example an OutOfMemoryError on a huge file) are not modelled.
