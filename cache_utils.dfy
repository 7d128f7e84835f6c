/**
 * CacheUtils.generateETag: an entity tag built from the MD5 digest of a
 * file's content, rendered as lower-case hex and wrapped in double quotes
 * (the opaque-tag form of section 14.19 of RFC 2616). The MD5 function
 * itself is a parameter.
 */
module CacheUtils {
  import opened Wrappers
  import opened JavaStrings

  // ---------------------------------------------------------------------
  // BigInteger(1, digest).toString(16)
  // ---------------------------------------------------------------------

  /** `new BigInteger(1, bytes)`: the bytes read as an unsigned big-endian number. */
  function BigEndian(bytes: seq<bv8>): nat {
    if bytes == [] then 0 else BigEndian(bytes[..|bytes| - 1]) * 256 + bytes[|bytes| - 1] as nat
  }

  predicate IsHexDigit(c: char) {
    ('0' <= c <= '9') || ('a' <= c <= 'f')
  }

  predicate AllHexDigits(s: string) {
    forall i :: 0 <= i < |s| ==> IsHexDigit(s[i])
  }

  /** The lower-case digit for `d`, as `Character.forDigit(d, 16)`. */
  function HexDigit(d: nat): (c: char)
    requires d < 16
    ensures IsHexDigit(c) && DigitValue(c) == d
  {
    if d < 10 then ('0' as int + d) as char else ('a' as int + d - 10) as char
  }

  function DigitValue(c: char): nat
    requires IsHexDigit(c)
  {
    if c <= '9' then c as int - '0' as int else c as int - 'a' as int + 10
  }

  /**
   * `BigInteger.toString(16)` of a non-negative number: lower-case hex
   * digits, most significant first, without leading zeros; "0" for zero.
   */
  function Hex(n: nat): (s: string)
    ensures |s| >= 1 && AllHexDigits(s)
    ensures s[0] == '0' <==> n == 0
    ensures n == 0 ==> s == "0"
    decreases n
  {
    if n < 16 then [HexDigit(n)] else Hex(n / 16) + [HexDigit(n % 16)]
  }

  /** The number a string of hex digits denotes. */
  function HexValue(s: string): nat
    requires AllHexDigits(s)
  {
    if s == [] then 0 else HexValue(s[..|s| - 1]) * 16 + DigitValue(s[|s| - 1])
  }

  /** Reading the rendered digits back gives the number. */
  lemma {:induction false} HexRoundTrip(n: nat)
    ensures HexValue(Hex(n)) == n
    decreases n
  {
    if n >= 16 {
      var s := Hex(n);
      assert s[..|s| - 1] == Hex(n / 16);
      HexRoundTrip(n / 16);
    }
  }

  function Pow16(k: nat): (p: nat)
    ensures p >= 1
  {
    if k == 0 then 1 else 16 * Pow16(k - 1)
  }

  /** A number below 16^k takes at most k hex digits. */
  lemma {:induction false} HexLength(n: nat, k: nat)
    requires k >= 1 && n < Pow16(k)
    ensures |Hex(n)| <= k
    decreases n
  {
    if n >= 16 {
      assert Pow16(1) == 16;
      assert k != 1;
      assert n / 16 < Pow16(k - 1);
      HexLength(n / 16, k - 1);
    }
  }

  /** An unsigned number of m bytes is below 16^(2m). */
  lemma {:induction false} BigEndianBound(bytes: seq<bv8>)
    ensures BigEndian(bytes) < Pow16(2 * |bytes|)
  {
    if bytes != [] {
      var init := bytes[..|bytes| - 1];
      BigEndianBound(init);
      var p := Pow16(2 * |init|);
      assert Pow16(2 * |bytes|) == 256 * p by {
        assert 2 * |bytes| == 2 * |init| + 2;
        assert Pow16(2 * |init| + 2) == 16 * (16 * p);
      }
      assert BigEndian(init) <= p - 1;
      assert BigEndian(init) * 256 <= (p - 1) * 256;
    }
  }

  /** Digests of one length that differ give different numbers. */
  lemma {:induction false} BigEndianInjective(a: seq<bv8>, b: seq<bv8>)
    requires |a| == |b| && BigEndian(a) == BigEndian(b)
    ensures a == b
  {
    if a != [] {
      var ia, ib := a[..|a| - 1], b[..|b| - 1];
      var qa, qb := BigEndian(ia), BigEndian(ib);
      var la, lb := a[|a| - 1] as nat, b[|b| - 1] as nat;
      assert qa * 256 + la == qb * 256 + lb;
      QuotientRemainderUnique(qa, la, qb, lb);
      BigEndianInjective(ia, ib);
      ByteOfValue(a[|a| - 1], b[|b| - 1]);
      assert a == ia + [a[|a| - 1]] && b == ib + [b[|b| - 1]];
    }
  }

  lemma ByteOfValue(x: bv8, y: bv8)
    requires x as nat == y as nat
    ensures x == y
  {
  }

  lemma QuotientRemainderUnique(q1: nat, r1: nat, q2: nat, r2: nat)
    requires r1 < 256 && r2 < 256 && q1 * 256 + r1 == q2 * 256 + r2
    ensures q1 == q2 && r1 == r2
  {
  }

  // ---------------------------------------------------------------------
  // The entity tag
  // ---------------------------------------------------------------------

  /** `"\"" + new BigInteger(1, digest).toString(16) + "\""`. */
  function ETagOf(digest: seq<bv8>): (tag: string)
    ensures 3 <= |tag| <= 2 * |digest| + 2 || (digest == [] && tag == "\"0\"")
    ensures tag[0] == '"' && tag[|tag| - 1] == '"'
    ensures var hex := tag[1..|tag| - 1];
      && AllHexDigits(hex)
      && HexValue(hex) == BigEndian(digest)
      && (hex[0] == '0' <==> BigEndian(digest) == 0)
    ensures BigEndian(digest) == 0 ==> tag == "\"0\""
  {
    var hex := Hex(BigEndian(digest));
    HexRoundTrip(BigEndian(digest));
    HexBound(digest);
    var tag := "\"" + hex + "\"";
    assert tag[1..|tag| - 1] == hex;
    tag
  }

  /** A digest of m >= 1 bytes renders in at most 2m hex digits. */
  lemma HexBound(digest: seq<bv8>)
    ensures digest != [] ==> |Hex(BigEndian(digest))| <= 2 * |digest|
  {
    if digest != [] {
      BigEndianBound(digest);
      HexLength(BigEndian(digest), 2 * |digest|);
    }
  }

  /** Two digests of one length (MD5 digests are 16 bytes) give the same tag only if they are equal. */
  lemma ETagIdentifiesDigest(a: seq<bv8>, b: seq<bv8>)
    requires |a| == |b|
    ensures ETagOf(a) == ETagOf(b) <==> a == b
  {
    if ETagOf(a) == ETagOf(b) {
      var ta := ETagOf(a);
      assert HexValue(ta[1..|ta| - 1]) == BigEndian(a);
      BigEndianInjective(a, b);
    }
  }

  /** An entity tag holds only hex digits between its quotes, so it has no comma, space or quote inside. */
  lemma ETagIsOneToken(digest: seq<bv8>)
    ensures var tag := ETagOf(digest);
      && FreeOf(tag, IsComma) && FreeOf(tag, IsWhitespace) && IsTrimForm(tag)
      && forall i :: 0 < i < |tag| - 1 ==> tag[i] != '"'
  {
    var tag := ETagOf(digest);
    forall i | 0 < i < |tag| - 1
      ensures IsHexDigit(tag[i])
    {
      assert tag[i] == tag[1..|tag| - 1][i - 1];
    }
  }

  // ---------------------------------------------------------------------
  // generateETag(File)
  // ---------------------------------------------------------------------

  datatype IOException = IOException

  /** A `FileInputStream` over a file's bytes; `read` may throw an IOException. */
  class ByteStream {
    const content: seq<bv8>
    /** How many bytes `read` returns before it throws, if it ever does. */
    const failsAfter: Option<nat>
    var pos: nat

    ghost predicate Valid()
      reads this
    {
      pos <= |content| && (failsAfter.Some? ==> pos <= failsAfter.value)
    }

    constructor (content: seq<bv8>, failsAfter: Option<nat>)
      ensures Valid() && pos == 0
      ensures this.content == content && this.failsAfter == failsAfter
    {
      this.content := content;
      this.failsAfter := failsAfter;
      pos := 0;
    }

    /** `read()`: the next byte as 0..255, or -1 at the end of the file. */
    method Read() returns (r: Result<int, IOException>)
      requires Valid()
      modifies this
      ensures Valid()
      ensures failsAfter == Some(old(pos)) ==> r.Failure? && pos == old(pos)
      ensures failsAfter != Some(old(pos)) && old(pos) < |content| ==>
        r == Success(content[old(pos)] as int) && pos == old(pos) + 1
      ensures failsAfter != Some(old(pos)) && old(pos) == |content| ==> r == Success(-1) && pos == old(pos)
    {
      if failsAfter == Some(pos) {
        return Failure(IOException);
      }
      if pos == |content| {
        return Success(-1);
      }
      r := Success(content[pos] as int);
      pos := pos + 1;
    }
  }

  /** `(char) c` for each byte, as the read loop appends them. */
  function ByteChars(bytes: seq<bv8>): (s: string)
    ensures |s| == |bytes|
    ensures forall i :: 0 <= i < |bytes| ==> s[i] as int == bytes[i] as int
  {
    if bytes == [] then [] else ByteChars(bytes[..|bytes| - 1]) + [(bytes[|bytes| - 1] as int) as char]
  }

  /** The value `generateETag` returns: null on an IOException or when MD5 is unavailable. */
  function ETagFor(content: seq<bv8>, failsAfter: Option<nat>, md5: Option<seq<bv8> -> seq<bv8>>): Option<string> {
    if failsAfter.Some? && failsAfter.value <= |content| then None
    else if md5.None? then None
    else Some(ETagOf(md5.value(content)))
  }

  /**
   * `generateETag(file)`: reads the file byte by byte into a buffer of chars
   * until `read` returns -1, digests the buffer's bytes with MD5 and renders
   * the digest. `md5` is `None` when `MessageDigest.getInstance("MD5")`
   * throws. The result depends on the file's content only.
   */
  method GenerateETag(file: ByteStream, md5: Option<seq<bv8> -> seq<bv8>>) returns (etag: Option<string>)
    requires file.Valid() && file.pos == 0
    modifies file
    ensures etag == ETagFor(file.content, file.failsAfter, md5)
  {
    var buffer: string := [];
    while true
      invariant file.Valid()
      invariant buffer == ByteChars(file.content[..file.pos])
      decreases |file.content| - file.pos
    {
      var c := file.Read();
      if c.Failure? {
        return None;  // IOException: logged, and null is returned
      }
      if c.value <= -1 {
        break;
      }
      assert file.content[..file.pos] == file.content[..file.pos - 1] + [file.content[file.pos - 1]];
      buffer := buffer + [c.value as char];
    }
    assert file.content[..file.pos] == file.content;
    if md5.None? {
      return None;  // NoSuchAlgorithmException: logged, and null is returned
    }
    var digest := md5.value(CharBytes(buffer));
    CharBytesOfByteChars(file.content);
    return Some(ETagOf(digest));
  }

  /** `buffer.toString().getBytes()`, taken as one byte per char (the chars here are all below 256). */
  function CharBytes(s: string): seq<bv8> {
    LowBytes(s)
  }

  lemma CharBytesOfByteChars(bytes: seq<bv8>)
    ensures CharBytes(ByteChars(bytes)) == bytes
  {
    var s := ByteChars(bytes);
    forall i | 0 <= i < |bytes|
      ensures LowBytes(s)[i] == bytes[i]
    {
      var n := bytes[i] as int;
      assert s[i] as int == n && n < 256;
      assert LowByte(s[i]) == n as bv8;
    }
  }
}
