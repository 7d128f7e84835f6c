/**
 * The java.lang.String operations the HTTP code relies on, with Java's
 * semantics: startsWith, indexOf, substring after a character, trim,
 * split (limit 0) and the low-byte encoding of DataOutputStream.writeBytes.
 */
module JavaStrings {

  /** `s.startsWith(prefix)`: case-sensitive. */
  predicate StartsWith(s: string, prefix: string) {
    |prefix| <= |s| && s[..|prefix|] == prefix
  }

  /** `s.indexOf(c)`: the first index of `c`, or -1 when `c` does not occur. */
  function IndexOf<T(==)>(s: seq<T>, c: T): (r: int)
    ensures -1 <= r < |s|
    ensures r == -1 <==> c !in s
    ensures r >= 0 ==> s[r] == c && c !in s[..r]
  {
    if s == [] then -1
    else if s[0] == c then 0
    else
      var k := IndexOf(s[1..], c);
      assert s[1..][..k + 1] == s[1..k + 2] by { }
      if k == -1 then -1 else k + 1
  }

  /** The first `c` of `x + y` is the head of `y` when `x` holds none. */
  lemma IndexOfAt<T>(x: seq<T>, y: seq<T>, c: T)
    requires c !in x && y != [] && y[0] == c
    ensures IndexOf(x + y, c) == |x|
  {
    assert (x + y)[|x|] == c;
    assert (x + y)[..|x|] == x;
  }

  /** `s.substring(s.indexOf(c) + 1)`: the text after the first `c`, or all of `s` when there is none. */
  function AfterFirst(s: string, c: char): (r: string)
    ensures c !in s ==> r == s
    ensures c in s ==> exists k :: 0 <= k < |s| && s[k] == c && c !in s[..k] && r == s[k + 1..]
  {
    s[IndexOf(s, c) + 1..]
  }

  /** The characters that `String.trim` removes: every char up to U+0020. */
  predicate IsTrimmed(c: char) {
    c <= ' '
  }

  predicate AllTrimmed(s: string) {
    forall i :: 0 <= i < |s| ==> IsTrimmed(s[i])
  }

  /** A string that `trim` leaves alone: empty, or with no trimmable char at either end. */
  predicate IsTrimForm(s: string) {
    s == [] || (!IsTrimmed(s[0]) && !IsTrimmed(s[|s| - 1]))
  }

  function TrimStart(s: string): (r: string)
    ensures |r| <= |s| && r == s[|s| - |r|..]
    ensures AllTrimmed(s[..|s| - |r|])
    ensures r == [] || !IsTrimmed(r[0])
  {
    if s != [] && IsTrimmed(s[0]) then
      var r := TrimStart(s[1..]);
      assert forall i :: 1 <= i < |s| - |r| ==> s[i] == s[1..][..|s| - 1 - |r|][i - 1];
      r
    else s
  }

  function TrimEnd(s: string): (r: string)
    ensures |r| <= |s| && r == s[..|r|]
    ensures AllTrimmed(s[|r|..])
    ensures r == [] || !IsTrimmed(r[|r| - 1])
  {
    if s != [] && IsTrimmed(s[|s| - 1]) then
      var r := TrimEnd(s[..|s| - 1]);
      assert forall i :: |r| <= i < |s| - 1 ==> s[i] == s[..|s| - 1][|r|..][i - |r|];
      r
    else s
  }

  /** `s.trim()`: drops the chars up to U+0020 at both ends. */
  function Trim(s: string): (r: string)
    ensures IsTrimForm(r)
    ensures exists i, j :: 0 <= i <= j <= |s| && r == s[i..j] && AllTrimmed(s[..i]) && AllTrimmed(s[j..])
  {
    var t := TrimStart(s);
    var r := TrimEnd(t);
    var i := |s| - |t|;
    assert r == s[i..i + |r|];
    assert s[i + |r|..] == t[|r|..];
    assert AllTrimmed(s[..i]) && AllTrimmed(s[i + |r|..]);
    r
  }

  lemma {:induction false} TrimStartOfPadded(pad: string, s: string)
    requires AllTrimmed(pad) && (s == [] || !IsTrimmed(s[0]))
    ensures TrimStart(pad + s) == s
    decreases |pad|
  {
    if pad == [] {
      assert pad + s == s;
    } else {
      assert (pad + s)[1..] == pad[1..] + s;
      TrimStartOfPadded(pad[1..], s);
    }
  }

  lemma {:induction false} TrimEndOfPadded(s: string, pad: string)
    requires AllTrimmed(pad) && (s == [] || !IsTrimmed(s[|s| - 1]))
    ensures TrimEnd(s + pad) == s
    decreases |pad|
  {
    if pad == [] {
      assert s + pad == s;
    } else {
      assert (s + pad)[..|s + pad| - 1] == s + pad[..|pad| - 1];
      TrimEndOfPadded(s, pad[..|pad| - 1]);
    }
  }

  /** `trim` recovers a trimmed string from any padding of chars up to U+0020. */
  lemma TrimOfPadded(before: string, s: string, after: string)
    requires AllTrimmed(before) && AllTrimmed(after) && IsTrimForm(s)
    ensures Trim(before + s + after) == s
  {
    if s == [] {
      assert before + s + after == before + after;
      TrimStartOfPadded(before + after, s);
      assert before + after + s == before + after;
    } else {
      assert before + s + after == before + (s + after);
      TrimStartOfPadded(before, s + after);
      TrimEndOfPadded(s, after);
    }
  }

  /** The ASCII upper-case of `s` (`toUpperCase` restricted to ASCII letters). */
  function ToUpper(s: string): (r: string)
    ensures |r| == |s|
    ensures forall i :: 0 <= i < |s| ==> r[i] == (if 'a' <= s[i] <= 'z' then (s[i] as int - 32) as char else s[i])
  {
    if s == [] then [] else ToUpper(s[..|s| - 1]) + [UpperChar(s[|s| - 1])]
  }

  function UpperChar(c: char): char {
    if 'a' <= c <= 'z' then (c as int - 32) as char else c
  }

  // ---------------------------------------------------------------------
  // String.split(regex) with limit 0
  // ---------------------------------------------------------------------

  /** The separators of the two splits the code uses: "," and "\\s+". */
  predicate IsComma(c: char) {
    c == ','
  }

  /** Java's `\s`: space, tab, newline, vertical tab, form feed, carriage return. */
  predicate IsWhitespace(c: char) {
    c == ' ' || c == '\t' || c == '\n' || c == '\U{B}' || c == '\U{C}' || c == '\r'
  }

  predicate FreeOf(s: string, isSep: char -> bool) {
    forall i :: 0 <= i < |s| ==> !isSep(s[i])
  }

  /** The pieces of `s` between single separator characters, empty pieces included. */
  function Fields(s: string, isSep: char -> bool): (r: seq<string>)
    ensures |r| >= 1
    ensures forall k :: 0 <= k < |r| ==> FreeOf(r[k], isSep)
    ensures FreeOf(s, isSep) ==> r == [s]
  {
    if s == [] then [""]
    else
      var rest := Fields(s[1..], isSep);
      if isSep(s[0]) then [""] + rest
      else
        assert FreeOf(s, isSep) ==> FreeOf(s[1..], isSep) && s == [s[0]] + s[1..];
        [[s[0]] + rest[0]] + rest[1..]
  }

  /** The inverse of `Fields` for a single-character separator. */
  function Join(parts: seq<string>, sep: char): (r: string)
    requires |parts| >= 1
  {
    if |parts| == 1 then parts[0] else parts[0] + [sep] + Join(parts[1..], sep)
  }

  lemma {:induction false} FieldsOfJoin(parts: seq<string>, sep: char, isSep: char -> bool)
    requires |parts| >= 1 && isSep(sep)
    requires forall k :: 0 <= k < |parts| ==> FreeOf(parts[k], isSep)
    ensures Fields(Join(parts, sep), isSep) == parts
    decreases |parts|, |parts[0]|
  {
    if |parts| == 1 {
    } else if parts[0] == [] {
      var s := Join(parts, sep);
      assert s == [sep] + Join(parts[1..], sep);
      assert s[1..] == Join(parts[1..], sep);
      FieldsOfJoin(parts[1..], sep, isSep);
      assert parts == [""] + parts[1..];
    } else {
      var s := Join(parts, sep);
      var p' := [parts[0][1..]] + parts[1..];
      assert s[0] == parts[0][0];
      assert s[1..] == Join(p', sep) by {
        assert Join(p', sep) == parts[0][1..] + [sep] + Join(parts[1..], sep);
      }
      FieldsOfJoin(p', sep, isSep);
      assert parts[0] == [parts[0][0]] + parts[0][1..];
    }
  }

  lemma {:induction false} JoinOfFields(s: string, sep: char)
    ensures Join(Fields(s, c => c == sep), sep) == s
    decreases |s|
  {
    var isSep := c => c == sep;
    if s == [] {
    } else {
      var rest := Fields(s[1..], isSep);
      JoinOfFields(s[1..], sep);
      if s[0] == sep {
        assert Fields(s, isSep) == [""] + rest;
        assert ([""] + rest)[1..] == rest;
      } else {
        var r := [[s[0]] + rest[0]] + rest[1..];
        assert Fields(s, isSep) == r;
        if |rest| == 1 {
        } else {
          assert r[1..] == rest[1..];
          assert Join(rest, sep) == rest[0] + [sep] + Join(rest[1..], sep);
        }
      }
    }
  }

  /** The list with its trailing empty strings removed, as `split` does with limit 0. */
  function DropTrailingEmpty(ps: seq<string>): (r: seq<string>)
    ensures |r| <= |ps| && r == ps[..|r|]
    ensures r == [] || r[|r| - 1] != ""
    ensures forall i :: |r| <= i < |ps| ==> ps[i] == ""
  {
    if ps == [] then []
    else if ps[|ps| - 1] == "" then DropTrailingEmpty(ps[..|ps| - 1])
    else ps
  }

  /** The non-empty strings of `ps`, in order. */
  function NonEmpty(ps: seq<string>): (r: seq<string>)
    ensures forall k :: 0 <= k < |r| ==> r[k] != ""
    ensures forall x :: x in r <==> x in ps && x != ""
  {
    if ps == [] then []
    else if ps[0] == "" then NonEmpty(ps[1..])
    else [ps[0]] + NonEmpty(ps[1..])
  }

  /**
   * `s.split(",")`: no comma gives `[s]` (so "" gives [""]); otherwise the
   * pieces between commas with trailing empty pieces removed.
   */
  function SplitComma(s: string): (r: seq<string>)
    ensures forall k :: 0 <= k < |r| ==> FreeOf(r[k], IsComma)
  {
    var f := Fields(s, IsComma);
    if FreeOf(s, IsComma) then [s] else DropTrailingEmpty(f)
  }

  /**
   * `s.split("\\s+")`: no whitespace gives `[s]`; otherwise the pieces
   * between maximal whitespace runs (a leading run yields one leading ""),
   * with trailing empty pieces removed.
   */
  function SplitWhitespace(s: string): (r: seq<string>)
    ensures forall k :: 0 <= k < |r| ==> FreeOf(r[k], IsWhitespace)
    ensures forall k :: 0 < k < |r| ==> r[k] != ""
  {
    var f := Fields(s, IsWhitespace);
    var runs := [f[0]] + NonEmpty(f[1..]);
    assert forall k :: 0 < k < |runs| ==> runs[k] in f[1..];
    if FreeOf(s, IsWhitespace) then [s] else DropTrailingEmpty(runs)
  }

  /**
   * A comma-joined list splits back into its items, less any empty items at
   * its end; a single item (no comma at all) comes back as it is, even "".
   */
  lemma SplitCommaOfJoin(parts: seq<string>)
    requires |parts| >= 1
    requires forall k :: 0 <= k < |parts| ==> FreeOf(parts[k], IsComma)
    ensures |parts| == 1 ==> SplitComma(Join(parts, ',')) == parts
    ensures |parts| >= 2 ==> SplitComma(Join(parts, ',')) == DropTrailingEmpty(parts)
    ensures parts[|parts| - 1] != "" ==> SplitComma(Join(parts, ',')) == parts
  {
    var s := Join(parts, ',');
    FieldsOfJoin(parts, ',', IsComma);
    if |parts| > 1 {
      assert s == parts[0] + [','] + Join(parts[1..], ',');
      assert s[|parts[0]|] == ',';
    }
  }

  /** Dropping trailing empty strings keeps every non-empty one. */
  lemma DropTrailingEmptyKeeps(ps: seq<string>, x: string)
    requires x != ""
    ensures x in DropTrailingEmpty(ps) <==> x in ps
  {
    var r := DropTrailingEmpty(ps);
    if x in ps {
      var k :| 0 <= k < |ps| && ps[k] == x;
      assert k < |r|;
      assert r[k] == x;
    }
  }

  /** Every char of `w` is a separator. */
  predicate AllOf(w: string, isSep: char -> bool) {
    forall i :: 0 <= i < |w| ==> isSep(w[i])
  }

  /** `n` empty pieces. */
  function Empties(n: nat): (r: seq<string>)
    ensures |r| == n && forall k :: 0 <= k < n ==> r[k] == ""
  {
    seq(n, _ => "")
  }

  /** Each separator of a run ends one piece: a run of n separators yields n empty pieces. */
  lemma {:induction false} FieldsOfRun(w: string, y: string, isSep: char -> bool)
    requires AllOf(w, isSep)
    ensures Fields(w + y, isSep) == Empties(|w|) + Fields(y, isSep)
    decreases |w|
  {
    if w != [] {
      assert (w + y)[1..] == w[1..] + y;
      FieldsOfRun(w[1..], y, isSep);
      assert Empties(|w|) == [""] + Empties(|w| - 1);
    } else {
      assert w + y == y;
    }
  }

  /** A separator-free word followed by a separator is the first piece. */
  lemma {:induction false} FieldsOfWord(x: string, t: string, isSep: char -> bool)
    requires FreeOf(x, isSep) && t != [] && isSep(t[0])
    ensures Fields(x + t, isSep) == [x] + Fields(t[1..], isSep)
    decreases |x|
  {
    if x == [] {
      assert x + t == t;
    } else {
      assert (x + t)[1..] == x[1..] + t;
      FieldsOfWord(x[1..], t, isSep);
      assert x == [x[0]] + x[1..];
    }
  }

  /** A word and then a run of n >= 1 separators: the word, then n - 1 empty pieces. */
  lemma FieldsOfWordRun(x: string, w: string, y: string, isSep: char -> bool)
    requires FreeOf(x, isSep) && w != [] && AllOf(w, isSep)
    ensures Fields(x + w + y, isSep) == [x] + Empties(|w| - 1) + Fields(y, isSep)
  {
    assert x + w + y == x + (w + y);
    FieldsOfWord(x, w + y, isSep);
    assert (w + y)[1..] == w[1..] + y;
    FieldsOfRun(w[1..], y, isSep);
  }

  /** A word and then a run of separators that ends the text. */
  lemma FieldsOfLastWord(x: string, w: string, isSep: char -> bool)
    requires FreeOf(x, isSep) && AllOf(w, isSep)
    ensures Fields(x + w, isSep) == [x] + Empties(|w|)
  {
    if w == [] {
      assert x + w == x;
    } else {
      FieldsOfWordRun(x, w, [], isSep);
      assert x + w + [] == x + w;
      assert Empties(|w| - 1) + [""] == Empties(|w|);
    }
  }

  lemma {:induction false} NonEmptyOfEmpties(n: nat, ps: seq<string>)
    ensures NonEmpty(Empties(n) + ps) == NonEmpty(ps)
    decreases n
  {
    if n == 0 {
      assert Empties(n) + ps == ps;
    } else {
      assert (Empties(n) + ps)[1..] == Empties(n - 1) + ps;
      NonEmptyOfEmpties(n - 1, ps);
    }
  }

  lemma NonEmptyCons(x: string, ps: seq<string>)
    requires x != ""
    ensures NonEmpty([x] + ps) == [x] + NonEmpty(ps)
  {
    assert ([x] + ps)[1..] == ps;
  }

  /** Dropping a non-empty first piece drops the first non-empty piece. */
  lemma NonEmptyTail(ps: seq<string>)
    requires ps != [] && ps[0] != ""
    ensures NonEmpty(ps) != [] && NonEmpty(ps[1..]) == NonEmpty(ps)[1..]
  {
    assert ps == [ps[0]] + ps[1..];
    NonEmptyCons(ps[0], ps[1..]);
  }

  /** A leading run of n >= 1 separators gives one leading empty piece and n - 1 more, which `NonEmpty` drops. */
  lemma FieldsOfLeadingRun(w0: string, t: string)
    requires w0 != "" && AllOf(w0, IsWhitespace)
    ensures var f := Fields(w0 + t, IsWhitespace);
      f[0] == "" && NonEmpty(f[1..]) == NonEmpty(Fields(t, IsWhitespace))
  {
    FieldsOfRun(w0, t, IsWhitespace);
    var ft := Fields(t, IsWhitespace);
    assert (Empties(|w0|) + ft)[1..] == Empties(|w0| - 1) + ft;
    NonEmptyOfEmpties(|w0| - 1, ft);
  }

  /** `SplitWhitespace` of a text holding whitespace, once its pieces with runs collapsed are known. */
  lemma SplitWhitespaceOfPieces(s: string, tokens: seq<string>)
    requires !FreeOf(s, IsWhitespace)
    requires tokens != [] && tokens[|tokens| - 1] != ""
    requires var f := Fields(s, IsWhitespace); [f[0]] + NonEmpty(f[1..]) == tokens
    ensures SplitWhitespace(s) == tokens
  {
  }

  /** `words` with `seps[i]` between `words[i]` and `words[i + 1]`. */
  function JoinWith(words: seq<string>, seps: seq<string>): string
    requires |words| >= 1 && |seps| == |words| - 1
  {
    if |words| == 1 then words[0] else words[0] + seps[0] + JoinWith(words[1..], seps[1..])
  }

  /** Non-empty words free of whitespace. */
  predicate AreWords(words: seq<string>) {
    forall k :: 0 <= k < |words| ==> words[k] != "" && FreeOf(words[k], IsWhitespace)
  }

  /** Non-empty runs of whitespace. */
  predicate AreRuns(seps: seq<string>) {
    forall k :: 0 <= k < |seps| ==> seps[k] != "" && AllOf(seps[k], IsWhitespace)
  }

  /** One word and then a run that ends the text: the word is the only non-empty piece. */
  lemma FieldsOfOneWord(x: string, w3: string)
    requires x != "" && FreeOf(x, IsWhitespace) && AllOf(w3, IsWhitespace)
    ensures var f := Fields(x + w3, IsWhitespace); f[0] == x && NonEmpty(f) == [x]
  {
    FieldsOfLastWord(x, w3, IsWhitespace);
    NonEmptyOfEmpties(|w3|, []);
    assert Empties(|w3|) + [] == Empties(|w3|);
    NonEmptyCons(x, Empties(|w3|));
  }

  /** The empty pieces a run leaves between two words disappear. */
  lemma NonEmptyOfWordRun(x: string, n: nat, fy: seq<string>, rest: seq<string>)
    requires x != "" && NonEmpty(fy) == rest
    ensures NonEmpty([x] + Empties(n) + fy) == [x] + rest
  {
    assert [x] + Empties(n) + fy == [x] + (Empties(n) + fy);
    NonEmptyOfEmpties(n, fy);
    NonEmptyCons(x, Empties(n) + fy);
  }

  /** The pieces of words separated by runs, then an optional run: the first word first, and the words once empties are dropped. */
  lemma {:induction false} FieldsOfWords(words: seq<string>, seps: seq<string>, w3: string)
    requires |words| >= 1 && |seps| == |words| - 1
    requires AreWords(words) && AreRuns(seps) && AllOf(w3, IsWhitespace)
    ensures var f := Fields(JoinWith(words, seps) + w3, IsWhitespace);
      f[0] == words[0] && NonEmpty(f) == words
    decreases |words|
  {
    if |words| == 1 {
      FieldsOfOneWord(words[0], w3);
      assert words == [words[0]];
    } else {
      ghost var y := JoinWith(words[1..], seps[1..]) + w3;
      assert JoinWith(words, seps) + w3 == words[0] + seps[0] + y;
      FieldsOfWords(words[1..], seps[1..], w3);
      FieldsOfWordRun(words[0], seps[0], y, IsWhitespace);
      NonEmptyOfWordRun(words[0], |seps[0]| - 1, Fields(y, IsWhitespace), words[1..]);
      assert words == [words[0]] + words[1..];
    }
  }

  /**
   * Whitespace-free words separated by runs of whitespace, with an optional
   * run before and after, split into exactly those words; a leading run adds
   * one empty first token.
   */
  lemma SplitWhitespaceOfWords(w0: string, words: seq<string>, seps: seq<string>, w3: string)
    requires |words| >= 1 && |seps| == |words| - 1
    requires AreWords(words) && AreRuns(seps) && AllOf(w0, IsWhitespace) && AllOf(w3, IsWhitespace)
    ensures w0 == "" ==> SplitWhitespace(w0 + JoinWith(words, seps) + w3) == words
    ensures w0 != "" ==> SplitWhitespace(w0 + JoinWith(words, seps) + w3) == [""] + words
  {
    ghost var t := JoinWith(words, seps) + w3;
    ghost var s := w0 + JoinWith(words, seps) + w3;
    assert s == w0 + t;
    FieldsOfWords(words, seps, w3);
    ghost var ft := Fields(t, IsWhitespace);
    if w0 == "" {
      assert s == t;
      if FreeOf(s, IsWhitespace) {
        assert ft == [s];
        assert NonEmpty([s]) == [s] by { NonEmptyCons(s, []); }
      } else {
        NonEmptyTail(ft);
        assert words == [words[0]] + words[1..];
        SplitWhitespaceOfPieces(s, words);
      }
    } else {
      assert !FreeOf(s, IsWhitespace) by { assert s[0] == w0[0]; }
      FieldsOfLeadingRun(w0, t);
      SplitWhitespaceOfPieces(s, [""] + words);
    }
  }

  /**
   * A blank text: the empty text splits into [""] (it holds no whitespace),
   * and a text of whitespace only splits into no tokens at all.
   */
  lemma SplitWhitespaceOfBlank(w: string)
    requires AllOf(w, IsWhitespace)
    ensures SplitWhitespace(w) == (if w == "" then [""] else [])
  {
    if w != "" {
      assert !FreeOf(w, IsWhitespace) by { assert IsWhitespace(w[0]); }
      assert w + "" == w;
      FieldsOfRun(w, "", IsWhitespace);
      var f := Fields(w, IsWhitespace);
      assert f[1..] == Empties(|w| - 1) + [""];
      NonEmptyOfEmpties(|w| - 1, [""]);
      assert NonEmpty([""]) == [] by { assert [""][1..] == []; }
      assert [f[0]] == [""];
    }
  }

  // ---------------------------------------------------------------------
  // Bytes
  // ---------------------------------------------------------------------

  /**
   * The bytes `DataOutputStream.writeBytes` emits for `s`: the low eight bits
   * of each char, in order.
   */
  function LowBytes(s: string): (r: seq<bv8>)
    ensures |r| == |s|
    ensures forall i :: 0 <= i < |s| ==> r[i] == LowByte(s[i])
  {
    seq(|s|, i requires 0 <= i < |s| => LowByte(s[i]))
  }

  lemma LowBytesAppend(a: string, b: string)
    ensures LowBytes(a + b) == LowBytes(a) + LowBytes(b)
  {
    var l, r := LowBytes(a + b), LowBytes(a) + LowBytes(b);
    forall i | 0 <= i < |a + b|
      ensures l[i] == r[i]
    {
      if i < |a| {
        assert (a + b)[i] == a[i];
      } else {
        assert (a + b)[i] == b[i - |a|];
      }
    }
  }

  /** The low eight bits of a char. */
  function LowByte(c: char): bv8 {
    (c as int % 256) as bv8
  }
}
