/**
 * The header queries of HttpRequest. Headers are kept as the raw lines of
 * the request, in order; a header is found by a case-sensitive prefix match
 * on the whole line, and the first matching line wins.
 */
module RequestHeaders {
  import opened Wrappers
  import opened JavaStrings

  const IfModifiedSinceName := "If-Modified-Since"
  const IfMatchName := "If-Match"
  const IfNoneMatchName := "If-None-Match"

  /** The index of the first line that starts with `name`, if any. */
  function FirstMatch(headers: seq<string>, name: string): (r: Option<nat>)
    ensures r.Some? ==> r.value < |headers| && StartsWith(headers[r.value], name)
    ensures r.Some? ==> forall j :: 0 <= j < r.value ==> !StartsWith(headers[j], name)
    ensures r.None? ==> forall j :: 0 <= j < |headers| ==> !StartsWith(headers[j], name)
  {
    if headers == [] then None
    else if StartsWith(headers[0], name) then Some(0)
    else
      match FirstMatch(headers[1..], name)
      case None => None
      case Some(k) => Some(k + 1)
  }

  /** `hasHeader(name)`: some stored line starts with `name`. */
  predicate HasHeader(headers: seq<string>, name: string)
    ensures HasHeader(headers, name) <==> exists i :: 0 <= i < |headers| && StartsWith(headers[i], name)
  {
    FirstMatch(headers, name).Some?
  }

  /**
   * `getHeaderValue(name)`: the trimmed text after the first ':' of the first
   * line that starts with `name` (the whole line, trimmed, when it has no
   * ':'). `None` is the absent header, where the Java code would throw.
   */
  function HeaderValue(headers: seq<string>, name: string): (r: Option<string>)
    ensures r.None? <==> !HasHeader(headers, name)
    ensures r.Some? ==> exists i :: (0 <= i < |headers| && StartsWith(headers[i], name)
      && (forall j :: 0 <= j < i ==> !StartsWith(headers[j], name))
      && r.value == Trim(AfterFirst(headers[i], ':')))
  {
    match FirstMatch(headers, name)
    case None => None
    case Some(i) => Some(Trim(AfterFirst(headers[i], ':')))
  }

  /** `ifModifiedSince(date)`: exact string equality with the header's value; false when it is absent. */
  predicate IfModifiedSince(headers: seq<string>, date: string)
    ensures IfModifiedSince(headers, date) ==> HasHeader(headers, IfModifiedSinceName)
    ensures IfModifiedSince(headers, date) <==> HeaderValue(headers, IfModifiedSinceName) == Some(date)
  {
    if HasHeader(headers, IfModifiedSinceName) then HeaderValue(headers, IfModifiedSinceName).value == date
    else false
  }

  /**
   * The list test shared by `ifMatch` and `ifNoneMatch`: the header is present
   * and `tag` is one of the pieces of its value split on ','. The pieces are
   * not trimmed. A null tag (`None`) is never listed.
   */
  predicate ListsTag(headers: seq<string>, name: string, tag: Option<string>)
    ensures ListsTag(headers, name, tag) ==> HasHeader(headers, name) && tag.Some?
    ensures ListsTag(headers, name, tag) ==> FreeOf(tag.value, IsComma)
  {
    if HasHeader(headers, name) then tag.Some? && tag.value in SplitComma(HeaderValue(headers, name).value)
    else false
  }

  /** The wildcard test shared by `isIfMatchWildcard` and `isIfNoneMatchWildcard`. */
  predicate IsWildcard(headers: seq<string>, name: string)
    ensures IsWildcard(headers, name) <==> HeaderValue(headers, name) == Some("*")
  {
    if HasHeader(headers, name) then HeaderValue(headers, name).value == "*" else false
  }

  predicate IfMatch(headers: seq<string>, tag: Option<string>) {
    ListsTag(headers, IfMatchName, tag)
  }

  predicate IsIfMatchWildcard(headers: seq<string>) {
    IsWildcard(headers, IfMatchName)
  }

  predicate IfNoneMatch(headers: seq<string>, tag: Option<string>) {
    ListsTag(headers, IfNoneMatchName, tag)
  }

  predicate IsIfNoneMatchWildcard(headers: seq<string>) {
    IsWildcard(headers, IfNoneMatchName)
  }

  // ---------------------------------------------------------------------
  // Properties
  // ---------------------------------------------------------------------

  /**
   * A line `name: value` is read back as `value` (when `value` has no padding
   * of its own), provided no earlier line starts with `name`.
   */
  lemma HeaderValueOfLine(headers: seq<string>, i: nat, name: string, value: string)
    requires ':' !in name && IsTrimForm(value)
    requires i < |headers| && headers[i] == name + ": " + value
    requires forall j :: 0 <= j < i ==> !StartsWith(headers[j], name)
    ensures HeaderValue(headers, name) == Some(value)
  {
    var line := name + ": " + value;
    assert StartsWith(line, name) by { assert line[..|name|] == name; }
    assert FirstMatch(headers, name) == Some(i) by {
      var r := FirstMatch(headers, name);
      if r.None? || r.value > i {
        assert false;
      } else if r.value < i {
        assert false;
      }
    }
    assert IndexOf(line, ':') == |name| by {
      var k := IndexOf(line, ':');
      assert line[|name|] == ':';
      assert line[..|name|] == name;
      if k == -1 || k > |name| {
        assert false;
      } else if k < |name| {
        assert false;
      }
    }
    assert AfterFirst(line, ':') == [' '] + value + [];
    TrimOfPadded([' '], value, []);
  }

  /**
   * When the header's value is a comma-separated list, a tag is listed
   * exactly when it equals one of the items, character for character (the
   * items keep any spaces that follow the commas). Empty items at the end
   * of the list, as in `"a",`, are dropped by `split` and list nothing.
   */
  lemma ListsTagOfList(headers: seq<string>, name: string, items: seq<string>, tag: string)
    requires |items| >= 1
    requires forall k :: 0 <= k < |items| ==> FreeOf(items[k], IsComma)
    requires HeaderValue(headers, name) == Some(Join(items, ','))
    ensures tag != "" ==> (ListsTag(headers, name, Some(tag)) <==> tag in items)
    ensures items[|items| - 1] != "" ==> (ListsTag(headers, name, Some(tag)) <==> tag in items)
    ensures |items| >= 2 ==> (ListsTag(headers, name, Some(tag)) <==> tag in DropTrailingEmpty(items))
  {
    SplitCommaOfJoin(items);
    if tag != "" {
      DropTrailingEmptyKeeps(items, tag);
    }
  }

  /** Under a wildcard value, the only tag that is listed is "*" itself. */
  lemma WildcardListsOnlyStar(headers: seq<string>, name: string, tag: string)
    requires IsWildcard(headers, name)
    ensures ListsTag(headers, name, Some(tag)) <==> tag == "*"
  {
    assert FreeOf("*", IsComma);
    assert SplitComma("*") == ["*"];
  }

  /** An absent header makes every query false: none of them is vacuously true. */
  lemma AbsentHeaderQueriesAreFalse(headers: seq<string>, tag: Option<string>, date: string)
    requires forall j :: 0 <= j < |headers| ==> !StartsWith(headers[j], IfMatchName)
    requires forall j :: 0 <= j < |headers| ==> !StartsWith(headers[j], IfNoneMatchName)
    requires forall j :: 0 <= j < |headers| ==> !StartsWith(headers[j], IfModifiedSinceName)
    ensures !IfMatch(headers, tag) && !IsIfMatchWildcard(headers)
    ensures !IfNoneMatch(headers, tag) && !IsIfNoneMatchWildcard(headers)
    ensures !IfModifiedSince(headers, date)
  {
  }
}
