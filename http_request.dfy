/**
 * HttpRequest: reads the request line and the header lines of an HTTP
 * request (section 5 of RFC 2616). The input stream is given as the
 * sequence of lines `readLine` would return, in order.
 */
module Request {
  import opened Wrappers
  import opened JavaStrings
  import opened RequestHeaders

  /** The request methods of section 5.1.1 of RFC 2616, and the fallback for any other token. */
  datatype Method = OPTIONS | GET | HEAD | POST | PUT | DELETE | TRACE | CONNECT | UNRECOGNIZED

  /** The name of each constant, as `Method.valueOf` matches it. */
  function MethodName(m: Method): string {
    match m
    case OPTIONS => "OPTIONS"
    case GET => "GET"
    case HEAD => "HEAD"
    case POST => "POST"
    case PUT => "PUT"
    case DELETE => "DELETE"
    case TRACE => "TRACE"
    case CONNECT => "CONNECT"
    case UNRECOGNIZED => "UNRECOGNIZED"
  }

  /** `Method.valueOf(token)`, with the catch block's fallback to `UNRECOGNIZED`. */
  function ParseMethod(token: string): (m: Method)
    ensures MethodName(m) == token || (m == UNRECOGNIZED && forall k: Method :: MethodName(k) != token)
  {
    if token == "OPTIONS" then OPTIONS
    else if token == "GET" then GET
    else if token == "HEAD" then HEAD
    else if token == "POST" then POST
    else if token == "PUT" then PUT
    else if token == "DELETE" then DELETE
    else if token == "TRACE" then TRACE
    else if token == "CONNECT" then CONNECT
    else UNRECOGNIZED
  }

  /** The exceptions that escape the constructor. */
  datatype ParseError =
    | NoRequestLine        // readLine() gave null: str.split throws NullPointerException
    | ShortRequestLine     // fewer than three tokens: split[1] or split[2] is out of bounds
    | UnterminatedHeaders  // the stream ended before an empty line: str.equals throws NullPointerException

  datatype RequestLine = RequestLine(httpMethod: Method, uri: string, version: string)

  /** `parseRequestLine`: tokens 0, 1 and 2 of the line split on whitespace runs. */
  function RequestLineOf(line: string): (r: Result<RequestLine, ParseError>)
    ensures r.Success? <==> |SplitWhitespace(line)| >= 3
    ensures r.Failure? ==> r.error == ShortRequestLine
  {
    var split := SplitWhitespace(line);
    if |split| < 3 then Failure(ShortRequestLine)
    else Success(RequestLine(ParseMethod(split[0]), split[1], split[2]))
  }

  /**
   * The header lines the constructor's loop stores: every line up to and
   * including the first empty one. `None` when no line is empty.
   */
  function HeaderBlock(rest: seq<string>): (r: Option<seq<string>>)
    ensures r.None? <==> "" !in rest
    ensures r.Some? ==> 1 <= |r.value| <= |rest| && r.value == rest[..|r.value|]
    ensures r.Some? ==> r.value[|r.value| - 1] == "" && "" !in r.value[..|r.value| - 1]
  {
    if rest == [] then None
    else if rest[0] == "" then Some([""])
    else
      match HeaderBlock(rest[1..])
      case None => None
      case Some(h) =>
        assert [rest[0]] + h == rest[..|h| + 1];
        assert ([rest[0]] + h)[..|h|] == [rest[0]] + h[..|h| - 1];
        Some([rest[0]] + h)
  }

  /** A parsed request: what the fields of HttpRequest hold after the constructor returns. */
  datatype Request = Request(httpMethod: Method, uri: string, version: string, headers: seq<string>)

  /** What `new HttpRequest(is)` produces from the lines of `is`. */
  function Parse(lines: seq<string>): Result<Request, ParseError> {
    if lines == [] then Failure(NoRequestLine)
    else
      match RequestLineOf(lines[0])
      case Failure(e) => Failure(e)
      case Success(rl) =>
        match HeaderBlock(lines[1..])
        case None => Failure(UnterminatedHeaders)
        case Some(hs) => Success(Request(rl.httpMethod, rl.uri, rl.version, hs))
  }

  class HttpRequest {
    var headers: seq<string>
    var httpMethod: Method
    var uri: string
    var version: string

    /** The request these fields describe. */
    function Value(): Request
      reads this
    {
      Request(httpMethod, uri, version, headers)
    }

    /** The object before the request line is read (the Java fields start out null). */
    constructor Empty()
      ensures headers == [] && httpMethod == UNRECOGNIZED && uri == "" && version == ""
    {
      headers := [];
      httpMethod := UNRECOGNIZED;
      uri := "";
      version := "";
    }

    /** `parseRequestLine(str)`: assigns method, URI and version, or reports the exception. */
    method ParseRequestLine(str: string) returns (err: Option<ParseError>)
      modifies this
      ensures headers == old(headers)
      ensures RequestLineOf(str).Failure? ==> err == Some(RequestLineOf(str).error)
      ensures RequestLineOf(str).Success? ==>
        err.None? && RequestLineOf(str).value == RequestLine(httpMethod, uri, version)
    {
      var split := SplitWhitespace(str);
      if |split| >= 1 {
        httpMethod := ParseMethod(split[0]);
      } else {
        httpMethod := UNRECOGNIZED;  // split[0] throws, and the catch block falls back
      }
      if |split| < 3 {
        return Some(ShortRequestLine);
      }
      uri := split[1];
      version := split[2];
      return None;
    }

    /** `parseRequestHeader(str)`: appends the line verbatim. */
    method ParseRequestHeader(str: string)
      modifies this
      ensures headers == old(headers) + [str]
      ensures httpMethod == old(httpMethod) && uri == old(uri) && version == old(version)
    {
      headers := headers + [str];
    }

    /**
     * The constructor's loop: starting from the request line `str`, while the
     * last line read is not empty, reads the next line and appends it. `ok`
     * is false when the lines run out first (readLine() gives null and
     * `str.equals` throws).
     */
    method ReadHeaders(str0: string, lines: seq<string>) returns (ok: bool)
      requires str0 != "" && headers == []
      modifies this
      ensures ok <==> HeaderBlock(lines).Some?
      ensures ok ==> headers == HeaderBlock(lines).value
      ensures httpMethod == old(httpMethod) && uri == old(uri) && version == old(version)
    {
      var str := str0;
      var i := 0;
      while str != ""
        invariant 0 <= i <= |lines|
        invariant i > 0 ==> str == lines[i - 1]
        invariant i == 0 ==> str == str0
        invariant headers == lines[..i]
        invariant forall j :: 0 <= j < i - 1 ==> lines[j] != ""
        invariant httpMethod == old(httpMethod) && uri == old(uri) && version == old(version)
        decreases |lines| - i
      {
        if i == |lines| {
          assert forall j :: 0 <= j < |lines| ==> lines[j] != "";
          return false;  // readLine() gives null
        }
        str := lines[i];
        ParseRequestHeader(str);
        assert lines[..i] + [str] == lines[..i + 1];
        i := i + 1;
      }
      HeaderBlockIsFirstEmpty(lines, i - 1);
      return true;
    }

    /**
     * The constructor `HttpRequest(InputStream)`: reads the request line, then
     * appends every following line until it has appended an empty one.
     */
    static method Read(lines: seq<string>) returns (r: Result<HttpRequest, ParseError>)
      ensures r.Failure? ==> Parse(lines) == Failure(r.error)
      ensures r.Success? ==> fresh(r.value) && Parse(lines) == Success(r.value.Value())
    {
      var req := new HttpRequest.Empty();
      if |lines| == 0 {
        return Failure(NoRequestLine);
      }
      var err := req.ParseRequestLine(lines[0]);
      if err.Some? {
        return Failure(err.value);
      }
      var ok := req.ReadHeaders(lines[0], lines[1..]);
      if !ok {
        return Failure(UnterminatedHeaders);
      }
      return Success(req);
    }
  }

  /** The stored block ends exactly at the first empty line. */
  lemma HeaderBlockIsFirstEmpty(rest: seq<string>, k: nat)
    requires k < |rest| && rest[k] == "" && "" !in rest[..k]
    ensures HeaderBlock(rest) == Some(rest[..k + 1])
  {
    assert rest[k] in rest;
    var block := HeaderBlock(rest).value;
    var n := |block|;
    assert block[n - 1] == rest[n - 1] == "";
    assert forall j :: 0 <= j < k ==> rest[..k][j] == rest[j] != "";
    assert forall j :: 0 <= j < n - 1 ==> block[..n - 1][j] == rest[j] != "";
    assert n == k + 1;
  }

  // ---------------------------------------------------------------------
  // Properties
  // ---------------------------------------------------------------------

  /**
   * The constructor succeeds exactly when there is a request line of at
   * least three tokens and a later empty line; the headers are then the
   * lines after the request line up to and including the first empty one,
   * verbatim and in order.
   */
  lemma ParseCharacterized(lines: seq<string>)
    ensures Parse(lines).Success? <==> |lines| >= 1 && |SplitWhitespace(lines[0])| >= 3 && "" in lines[1..]
    ensures Parse(lines).Success? ==> var hs := Parse(lines).value.headers;
      1 <= |hs| < |lines| && hs == lines[1..|hs| + 1] && hs[|hs| - 1] == "" && "" !in hs[..|hs| - 1]
    ensures Parse(lines).Success? ==> var split := SplitWhitespace(lines[0]);
      var req := Parse(lines).value;
      req.httpMethod == ParseMethod(split[0]) && req.uri == split[1] && req.version == split[2]
  {
    if |lines| >= 1 && RequestLineOf(lines[0]).Success? {
      match HeaderBlock(lines[1..])
      case None =>
      case Some(hs) =>
        assert lines[1..][..|hs|] == lines[1..|hs| + 1];
    }
  }

  /**
   * A request line of whitespace-free words separated by any runs of
   * whitespace. It parses when it has at least three words: the method is
   * the first, the URI and version the second and third, and later words
   * are ignored. Whitespace before the first word makes `split` yield a
   * leading "", which shifts them: the method is then `UNRECOGNIZED`, the
   * URI is the first word and the version the second. Too few pieces is
   * the short-line error.
   */
  lemma RequestLineOfWords(w0: string, words: seq<string>, seps: seq<string>, w3: string)
    requires |words| >= 1 && |seps| == |words| - 1
    requires AreWords(words) && AreRuns(seps) && AllOf(w0, IsWhitespace) && AllOf(w3, IsWhitespace)
    ensures w0 == "" && |words| >= 3 ==>
      RequestLineOf(w0 + JoinWith(words, seps) + w3) == Success(RequestLine(ParseMethod(words[0]), words[1], words[2]))
    ensures w0 == "" && |words| < 3 ==>
      RequestLineOf(w0 + JoinWith(words, seps) + w3) == Failure(ShortRequestLine)
    ensures w0 != "" && |words| >= 2 ==>
      RequestLineOf(w0 + JoinWith(words, seps) + w3) == Success(RequestLine(UNRECOGNIZED, words[0], words[1]))
    ensures w0 != "" && |words| < 2 ==>
      RequestLineOf(w0 + JoinWith(words, seps) + w3) == Failure(ShortRequestLine)
  {
    SplitWhitespaceOfWords(w0, words, seps, w3);
  }

  /** Three words joined by single spaces. */
  lemma JoinWithSpaces(a: string, b: string, c: string)
    ensures "" + JoinWith([a, b, c], [" ", " "]) + "" == a + " " + b + " " + c
  {
    assert JoinWith([a, b, c][1..][1..], [" ", " "][1..][1..]) == c;
    assert JoinWith([a, b, c][1..], [" ", " "][1..]) == b + " " + c;
  }

  /** `" GET / HTTP/1.0"`, with one leading space, is read as method UNRECOGNIZED, URI "GET" and version "/". */
  lemma LeadingSpaceShiftsTokens()
    ensures RequestLineOf(" GET / HTTP/1.0") == Success(RequestLine(UNRECOGNIZED, "GET", "/"))
  {
    JoinWithSpaces("GET", "/", "HTTP/1.0");
    assert " GET / HTTP/1.0" == " " + JoinWith(["GET", "/", "HTTP/1.0"], [" ", " "]) + "";
    RequestLineOfWords(" ", ["GET", "/", "HTTP/1.0"], [" ", " "], "");
  }

  /**
   * A blank request line, empty or whitespace only, is not skipped: it
   * splits into fewer than three pieces, and the request fails with the
   * short-line error.
   */
  lemma BlankRequestLineIsShort(w: string, rest: seq<string>)
    requires AllOf(w, IsWhitespace)
    ensures RequestLineOf(w) == Failure(ShortRequestLine)
    ensures Parse([w] + rest) == Failure(ShortRequestLine)
  {
    SplitWhitespaceOfBlank(w);
    assert ([w] + rest)[0] == w;
  }

  /** A line of one token, such as `GET`, is the short-line error. */
  lemma OneTokenIsShort(m: string)
    requires IsToken(m)
    ensures RequestLineOf(m) == Failure(ShortRequestLine)
  {
    assert m == "" + JoinWith([m], []) + "";
    RequestLineOfWords("", [m], [], "");
  }

  /** A line of two tokens, such as `GET /`, is the short-line error. */
  lemma TwoTokensAreShort(m: string, uri: string)
    requires IsToken(m) && IsToken(uri)
    ensures RequestLineOf(m + " " + uri) == Failure(ShortRequestLine)
  {
    assert JoinWith([m, uri][1..], [" "][1..]) == uri;
    assert m + " " + uri == "" + JoinWith([m, uri], [" "]) + "";
    RequestLineOfWords("", [m, uri], [" "], "");
  }

  /** A fourth token, as in `GET / HTTP/1.0 x`, is ignored. */
  lemma FourthTokenIgnored(m: string, uri: string, version: string, extra: string)
    requires IsToken(m) && IsToken(uri) && IsToken(version) && IsToken(extra)
    ensures RequestLineOf(m + " " + uri + " " + version + " " + extra)
      == Success(RequestLine(ParseMethod(m), uri, version))
  {
    var words, seps := [m, uri, version, extra], [" ", " ", " "];
    assert JoinWith(words[1..][1..][1..], seps[1..][1..][1..]) == extra;
    assert JoinWith(words[1..][1..], seps[1..][1..]) == version + " " + extra;
    assert JoinWith(words[1..], seps[1..]) == uri + " " + (version + " " + extra);
    assert m + " " + uri + " " + version + " " + extra == "" + JoinWith(words, seps) + "";
    RequestLineOfWords("", words, seps, "");
  }

  /** A request line `method SP uri SP version` yields exactly those three parts. */
  lemma RequestLineRoundTrip(m: Method, uri: string, version: string)
    requires IsToken(uri) && IsToken(version)
    ensures RequestLineOf(MethodName(m) + " " + uri + " " + version) == Success(RequestLine(m, uri, version))
  {
    MethodNameToken(m);
    JoinWithSpaces(MethodName(m), uri, version);
    RequestLineOfWords("", [MethodName(m), uri, version], [" ", " "], "");
  }

  /** Every method name is a single non-empty token that `valueOf` maps back to its constant. */
  lemma MethodNameToken(m: Method)
    ensures MethodName(m) != "" && FreeOf(MethodName(m), IsWhitespace)
    ensures ParseMethod(MethodName(m)) == m
  {
    match m
    case OPTIONS =>
    case GET =>
    case HEAD =>
    case POST =>
    case PUT =>
    case DELETE =>
    case TRACE =>
    case CONNECT =>
    case UNRECOGNIZED =>
  }

  /** A method token that names no constant is read as `UNRECOGNIZED`; the request line still parses. */
  lemma UnknownMethodIsUnrecognized(token: string, uri: string, version: string)
    requires IsToken(token) && IsToken(uri) && IsToken(version)
    requires forall k: Method :: k != UNRECOGNIZED ==> MethodName(k) != token
    ensures RequestLineOf(token + " " + uri + " " + version) == Success(RequestLine(UNRECOGNIZED, uri, version))
  {
    JoinWithSpaces(token, uri, version);
    RequestLineOfWords("", [token, uri, version], [" ", " "], "");
  }

  // ---------------------------------------------------------------------
  // The cases of IfMatchTest, for any URI and version
  // ---------------------------------------------------------------------

  /** A GET request whose only header is `If-Match: <value>`, as the tests send it. */
  function IfMatchRequestLines(uri: string, version: string, value: string): seq<string> {
    [MethodName(GET) + " " + uri + " " + version, IfMatchName + ": " + value, ""]
  }

  predicate IsToken(s: string) {
    s != "" && FreeOf(s, IsWhitespace)
  }

  lemma IfMatchRequestParse(uri: string, version: string, value: string)
    requires IsToken(uri) && IsToken(version) && IsTrimForm(value)
    ensures Parse(IfMatchRequestLines(uri, version, value))
      == Success(Request(GET, uri, version, [IfMatchName + ": " + value, ""]))
    ensures HeaderValue([IfMatchName + ": " + value, ""], IfMatchName) == Some(value)
  {
    var lines := IfMatchRequestLines(uri, version, value);
    RequestLineRoundTrip(GET, uri, version);
    HeaderBlockOfOne(IfMatchName + ": " + value);
    assert lines[1..] == [IfMatchName + ": " + value, ""];
    IfMatchLine(value);
  }

  lemma HeaderBlockOfOne(h: string)
    requires h != ""
    ensures HeaderBlock([h, ""]) == Some([h, ""])
  {
    assert [h, ""][1..] == [""];
    assert HeaderBlock([""]) == Some([""]);
    assert [h] + [""] == [h, ""];
  }

  lemma IfMatchLine(value: string)
    requires IsTrimForm(value)
    ensures HeaderValue([IfMatchName + ": " + value, ""], IfMatchName) == Some(value)
  {
    assert ':' !in IfMatchName;
    HeaderValueOfLine([IfMatchName + ": " + value, ""], 0, IfMatchName, value);
  }

  /**
   * IfMatchContainsTagMultipleTags and IfMatchNotContainsTagMultipleTags:
   * with `If-Match: t1, t2, t3` a tag matches exactly when it is `t1`,
   * `" " + t2` or `" " + t3`. The first listed tag matches and an unlisted
   * one does not; the later tags match only with the space that follows
   * each comma, since the pieces are not trimmed.
   */
  lemma IfMatchTestMultipleTags(uri: string, version: string, t1: string, t2: string, t3: string, tag: string)
    requires IsToken(uri) && IsToken(version)
    requires t1 != "" && t3 != "" && !IsTrimmed(t1[0]) && !IsTrimmed(t3[|t3| - 1])
    requires FreeOf(t1, IsComma) && FreeOf(t2, IsComma) && FreeOf(t3, IsComma)
    ensures var r := Parse(IfMatchRequestLines(uri, version, t1 + ", " + t2 + ", " + t3));
      && r.Success?
      && (IfMatch(r.value.headers, Some(tag)) <==> tag in [t1, " " + t2, " " + t3])
  {
    var value := t1 + ", " + t2 + ", " + t3;
    var items := [t1, " " + t2, " " + t3];
    assert Join(items, ',') == value by {
      assert items[1..] == [" " + t2, " " + t3];
      assert items[1..][1..] == [" " + t3];
      calc {
        Join(items, ',');
        t1 + [','] + Join(items[1..], ',');
        t1 + [','] + ((" " + t2) + [','] + Join(items[1..][1..], ','));
        t1 + [','] + ((" " + t2) + [','] + (" " + t3));
        { assert [','] + " " == ", "; }
        t1 + ", " + t2 + ", " + t3;
      }
    }
    assert IsTrimForm(value) by {
      assert value[0] == t1[0];
      assert value[|value| - 1] == t3[|t3| - 1];
    }
    assert forall k :: 0 <= k < |items| ==> FreeOf(items[k], IsComma);
    IfMatchRequestParse(uri, version, value);
    ListsTagOfList([IfMatchName + ": " + value, ""], IfMatchName, items, tag);
  }

  /** IfMatchContainsTagSingleTag and IfMatchNotContainsTagSingleTag: `If-Match: t` matches exactly `t`. */
  lemma IfMatchTestSingleTag(uri: string, version: string, t: string, tag: string)
    requires IsToken(uri) && IsToken(version) && t != "" && IsTrimForm(t) && FreeOf(t, IsComma)
    ensures var r := Parse(IfMatchRequestLines(uri, version, t));
      r.Success? && (IfMatch(r.value.headers, Some(tag)) <==> tag == t)
  {
    IfMatchRequestParse(uri, version, t);
    SingleTagListed(t, tag);
  }

  /** The header block `If-Match: t` lists `t` and nothing else. */
  lemma SingleTagListed(t: string, tag: string)
    requires IsTrimForm(t) && FreeOf(t, IsComma)
    ensures IfMatch([IfMatchName + ": " + t, ""], Some(tag)) <==> tag == t
  {
    ghost var headers := [IfMatchName + ": " + t, ""];
    IfMatchLine(t);
    assert HasHeader(headers, IfMatchName);
    assert SplitComma(t) == [t];
    assert IfMatch(headers, Some(tag)) <==> tag in [t];
  }

  /** IfMatchWildcard: `If-Match: *` is the wildcard, and lists "*" and nothing else. */
  lemma IfMatchTestWildcard(uri: string, version: string, tag: string)
    requires IsToken(uri) && IsToken(version)
    ensures var r := Parse(IfMatchRequestLines(uri, version, "*"));
      && r.Success?
      && IsIfMatchWildcard(r.value.headers)
      && (IfMatch(r.value.headers, Some(tag)) <==> tag == "*")
  {
    IfMatchRequestParse(uri, version, "*");
    WildcardListsOnlyStar([IfMatchName + ": " + "*", ""], IfMatchName, tag);
  }
}
