/**
 * The unpadded URL-safe text of bytes (section 5 of RFC 4648): the front end makes it from the
 * browser's padded base64, the back end directly, and both read it back.
 */
module Base64Url {
  import opened Wrappers

  type byte = x: int | 0 <= x < 256

  type sextet = x: int | 0 <= x < 64

  // ------------------------------------------------------------------ bytes and sextets

  /** The four sextets in three bytes. */
  function Sextet0(x: byte): sextet {
    x / 4
  }

  function Sextet1(x: byte, y: byte): sextet {
    x % 4 * 16 + y / 16
  }

  function Sextet2(y: byte, z: byte): sextet {
    y % 16 * 4 + z / 64
  }

  function Sextet3(z: byte): sextet {
    z % 64
  }

  /** The bytes cut into groups of six bits, the last one filled with zeros. */
  function Sextets(b: seq<byte>): seq<sextet> {
    if |b| == 0 then []
    else if |b| == 1 then [Sextet0(b[0]), Sextet1(b[0], 0)]
    else if |b| == 2 then [Sextet0(b[0]), Sextet1(b[0], b[1]), Sextet2(b[1], 0)]
    else [Sextet0(b[0]), Sextet1(b[0], b[1]), Sextet2(b[1], b[2]), Sextet3(b[2])] + Sextets(b[3..])
  }

  /** The three bytes in four sextets. */
  function Byte0(v0: sextet, v1: sextet): byte {
    var (x: int, y: int) := (v0, v1);
    x * 4 + y / 16
  }

  function Byte1(v1: sextet, v2: sextet): byte {
    var (x: int, y: int) := (v1, v2);
    x % 16 * 16 + y / 4
  }

  function Byte2(v2: sextet, v3: sextet): byte {
    var (x: int, y: int) := (v2, v3);
    x % 4 * 64 + y
  }

  /** The whole bytes in a row of sextets; the bits left over are dropped. */
  function Bytes(v: seq<sextet>): seq<byte> {
    if |v| <= 1 then []
    else if |v| == 2 then [Byte0(v[0], v[1])]
    else if |v| == 3 then [Byte0(v[0], v[1]), Byte1(v[1], v[2])]
    else [Byte0(v[0], v[1]), Byte1(v[1], v[2]), Byte2(v[2], v[3])] + Bytes(v[4..])
  }

  lemma BytesInSextets(x: byte, y: byte, z: byte)
    ensures Byte0(Sextet0(x), Sextet1(x, y)) == x
    ensures Byte1(Sextet1(x, y), Sextet2(y, z)) == y
    ensures Byte2(Sextet2(y, z), Sextet3(z)) == z
  {
  }

  lemma SextetsInBytes(v0: sextet, v1: sextet, v2: sextet, v3: sextet)
    ensures Sextet0(Byte0(v0, v1)) == v0
    ensures Sextet1(Byte0(v0, v1), Byte1(v1, v2)) == v1
    ensures Sextet2(Byte1(v1, v2), Byte2(v2, v3)) == v2
    ensures Sextet3(Byte2(v2, v3)) == v3
  {
  }

  /** The bits left over are zero exactly when cutting up again gives the same sextets. */
  lemma SpareBits(v0: sextet, v1: sextet, v2: sextet)
    ensures Sextet1(Byte0(v0, v1), 0) == v1 <==> v1 % 16 == 0
    ensures Sextet2(Byte1(v1, v2), 0) == v2 <==> v2 % 4 == 0
  {
  }

  lemma BytesOfGroup(v0: sextet, v1: sextet, v2: sextet, v3: sextet, rest: seq<sextet>)
    ensures Bytes([v0, v1, v2, v3] + rest) == [Byte0(v0, v1), Byte1(v1, v2), Byte2(v2, v3)] + Bytes(rest)
  {
    assert ([v0, v1, v2, v3] + rest)[4..] == rest;
  }

  lemma SextetsOfGroup(x: byte, y: byte, z: byte, rest: seq<byte>)
    ensures Sextets([x, y, z] + rest) == [Sextet0(x), Sextet1(x, y), Sextet2(y, z), Sextet3(z)] + Sextets(rest)
  {
    assert ([x, y, z] + rest)[3..] == rest;
  }

  lemma {:induction false} SextetsLength(b: seq<byte>)
    ensures |Sextets(b)| == (4 * |b| + 2) / 3
  {
    if |b| >= 3 {
      SextetsLength(b[3..]);
    }
  }

  lemma {:induction false} BytesOfSextets(b: seq<byte>)
    ensures Bytes(Sextets(b)) == b
  {
    if b != [] {
      BytesInSextets(b[0], if |b| > 1 then b[1] else 0, if |b| > 2 then b[2] else 0);
    }
    hide Byte0;
    hide Byte1;
    hide Byte2;
    hide Sextet0;
    hide Sextet1;
    hide Sextet2;
    hide Sextet3;
    if |b| >= 3 {
      var (x, y, z) := (b[0], b[1], b[2]);
      assert b == [x, y, z] + b[3..];
      BytesOfSextets(b[3..]);
      SextetsOfGroup(x, y, z, b[3..]);
      BytesOfGroup(Sextet0(x), Sextet1(x, y), Sextet2(y, z), Sextet3(z), Sextets(b[3..]));
      hide Bytes;
      hide Sextets;
    }
  }

  // ------------------------------------------------------------------ alphabets

  function Letter(v: sextet, c62: char, c63: char): char {
    if v < 26 then (v + 'A' as int) as char
    else if v < 52 then (v - 26 + 'a' as int) as char
    else if v < 62 then (v - 52 + '0' as int) as char
    else if v == 62 then c62
    else c63
  }

  function ValueOf(c: char, c62: char, c63: char): Option<sextet> {
    if 'A' <= c <= 'Z' then Some(c as int - 'A' as int)
    else if 'a' <= c <= 'z' then Some(c as int - 'a' as int + 26)
    else if '0' <= c <= '9' then Some(c as int - '0' as int + 52)
    else if c == c62 then Some(62)
    else if c == c63 then Some(63)
    else None
  }

  function Letters(v: seq<sextet>, c62: char, c63: char): (s: string)
    ensures |s| == |v|
  {
    seq(|v|, i requires 0 <= i < |v| => Letter(v[i], c62, c63))
  }

  predicate InAlphabet(s: string, c62: char, c63: char) {
    forall i :: 0 <= i < |s| ==> ValueOf(s[i], c62, c63).Some?
  }

  function Values(s: string, c62: char, c63: char): (v: seq<sextet>)
    requires InAlphabet(s, c62, c63)
    ensures |v| == |s|
  {
    seq(|s|, i requires 0 <= i < |s| => ValueOf(s[i], c62, c63).value)
  }

  lemma LettersRoundTrip(v: seq<sextet>)
    ensures InAlphabet(Letters(v, '-', '_'), '-', '_') && Values(Letters(v, '-', '_'), '-', '_') == v
  {
  }

  // ------------------------------------------------------------------ the back end's codec

  function RawEncode(b: seq<byte>): string {
    Letters(Sextets(b), '-', '_')
  }

  function RemoveAll(s: string, drop: set<char>): string {
    if s == "" then "" else if s[0] in drop then RemoveAll(s[1..], drop) else [s[0]] + RemoveAll(s[1..], drop)
  }

  /** Line breaks are skipped; any other foreign character and a lone last one are errors. */
  function RawDecode(s: string): Option<seq<byte>> {
    var t := RemoveAll(s, {'\r', '\n'});
    if !InAlphabet(t, '-', '_') || |t| % 4 == 1 then None else Some(Bytes(Values(t, '-', '_')))
  }

  // ------------------------------------------------------------------ the front end's codec

  function ReplaceChar(s: string, from: char, to: char): (r: string)
    ensures |r| == |s|
  {
    seq(|s|, i requires 0 <= i < |s| => if s[i] == from then to else s[i])
  }

  function Padding(length: nat): (p: string) {
    if length % 4 == 0 then "" else if length % 4 == 1 then "===" else if length % 4 == 2 then "==" else "="
  }

  /** The browser's base64. */
  function Btoa(b: seq<byte>): string {
    var letters := Letters(Sextets(b), '+', '/');
    letters + Padding(|letters|)
  }

  function StripPadding(s: string): string {
    if |s| % 4 == 0 && |s| >= 2 && s[|s| - 2..] == "==" then s[..|s| - 2]
    else if |s| % 4 == 0 && |s| >= 1 && s[|s| - 1] == '=' then s[..|s| - 1]
    else s
  }

  /** The browser's forgiving reader: white space and up to two final `=` go first. */
  function Atob(s: string): Option<seq<byte>> {
    var t := StripPadding(RemoveAll(s, {' ', '\t', '\n', '\U{0C}', '\r'}));
    if |t| % 4 == 1 || !InAlphabet(t, '+', '/') then None else Some(Bytes(Values(t, '+', '/')))
  }

  function UrlEncode(b: seq<byte>): string {
    RemoveAll(ReplaceChar(ReplaceChar(Btoa(b), '+', '-'), '/', '_'), {'='})
  }

  function UrlDecode(s: string): Option<seq<byte>> {
    var base64 := ReplaceChar(ReplaceChar(s, '-', '+'), '_', '/');
    Atob(base64 + Padding(|base64|))
  }

  // ------------------------------------------------------------------ laws

  lemma {:induction false} NothingToRemove(s: string, drop: set<char>)
    requires forall i :: 0 <= i < |s| ==> s[i] !in drop
    ensures RemoveAll(s, drop) == s
  {
    if s != "" {
      NothingToRemove(s[1..], drop);
    }
  }

  lemma {:induction false} RemoveTail(s: string, tail: string, drop: set<char>)
    requires forall i :: 0 <= i < |s| ==> s[i] !in drop
    requires forall i :: 0 <= i < |tail| ==> tail[i] in drop
    ensures RemoveAll(s + tail, drop) == s
  {
    if s == "" {
      assert s + tail == tail;
      AllRemoved(tail, drop);
    } else {
      assert (s + tail)[1..] == s[1..] + tail;
      RemoveTail(s[1..], tail, drop);
    }
  }

  lemma {:induction false} AllRemoved(s: string, drop: set<char>)
    requires forall i :: 0 <= i < |s| ==> s[i] in drop
    ensures RemoveAll(s, drop) == ""
  {
    if s != "" {
      AllRemoved(s[1..], drop);
    }
  }

  lemma NoBreaks(s: string)
    requires InAlphabet(s, '-', '_')
    ensures RemoveAll(s, {'\r', '\n'}) == s
  {
    NothingToRemove(s, {'\r', '\n'});
  }

  /** The three replacements of the front end give exactly the back end's text. */
  lemma EncodersAgree(b: seq<byte>)
    ensures UrlEncode(b) == RawEncode(b)
  {
    var v := Sextets(b);
    var pad := Padding(|v|);
    var replaced := ReplaceChar(ReplaceChar(Btoa(b), '+', '-'), '/', '_');
    assert replaced == RawEncode(b) + pad;
    RemoveTail(RawEncode(b), pad, {'='});
  }

  /** On text over the URL-safe alphabet, of any length, the two readers accept the same and read the same. */
  lemma DecodersAgree(s: string)
    requires InAlphabet(s, '-', '_')
    ensures UrlDecode(s) == RawDecode(s)
  {
    NoBreaks(s);
    var base64 := ReplaceChar(ReplaceChar(s, '-', '+'), '_', '/');
    var padded := base64 + Padding(|s|);
    assert InAlphabet(base64, '+', '/') && Values(base64, '+', '/') == Values(s, '-', '_');
    NothingToRemove(padded, {' ', '\t', '\n', '\U{0C}', '\r'});
    Stripped(base64);
  }

  /** Padding up to a multiple of four and stripping again, unless a single character is left over. */
  lemma Stripped(s: string)
    requires InAlphabet(s, '+', '/')
    ensures |s| % 4 != 1 ==> StripPadding(s + Padding(|s|)) == s
    ensures |s| % 4 == 1 ==> !InAlphabet(StripPadding(s + Padding(|s|)), '+', '/')
  {
    var t := s + Padding(|s|);
    if |s| % 4 == 0 {
      assert t == s;
      if s != "" {
        assert ValueOf(s[|s| - 1], '+', '/').Some?;
        assert s[|s| - 2..][1] == s[|s| - 1];
      }
    } else if |s| % 4 == 1 {
      assert t[|t| - 2..] == "==";
      assert StripPadding(t)[|s|] == '=';
    } else if |s| % 4 == 2 {
      assert t[|t| - 2..] == "==";
      assert t[..|t| - 2] == s;
    } else {
      assert ValueOf(s[|s| - 1], '+', '/').Some?;
      assert t[|t| - 2..][0] == s[|s| - 1];
      assert t[..|t| - 1] == s;
    }
  }

  lemma LettersDecoded(v: seq<sextet>)
    requires |v| % 4 != 1
    ensures RawDecode(Letters(v, '-', '_')) == Some(Bytes(v))
  {
    var s := Letters(v, '-', '_');
    LettersRoundTrip(v);
    hide Bytes;
    hide Letters;
    hide Values;
    hide InAlphabet;
    hide RemoveAll;
    NoBreaks(s);
  }

  /** Every byte sequence is read back by either reader from what either writer writes. */
  lemma RoundTrip(b: seq<byte>)
    ensures RawDecode(RawEncode(b)) == Some(b)
    ensures UrlDecode(UrlEncode(b)) == Some(b)
    ensures RawDecode(UrlEncode(b)) == Some(b)
  {
    SextetsLength(b);
    LettersDecoded(Sextets(b));
    LettersRoundTrip(Sextets(b));
    BytesOfSextets(b);
    EncodersAgree(b);
    hide InAlphabet;
    hide Bytes;
    hide Sextets;
    hide RawDecode;
    hide UrlDecode;
    hide UrlEncode;
    DecodersAgree(RawEncode(b));
  }

  /** The text is unpadded and URL-safe, four characters for three bytes rounded up. */
  lemma EncodedForm(b: seq<byte>)
    ensures |UrlEncode(b)| == (4 * |b| + 2) / 3
    ensures forall c :: c in UrlEncode(b) ==> 'A' <= c <= 'Z' || 'a' <= c <= 'z' || '0' <= c <= '9' || c == '-' || c == '_'
  {
    SextetsLength(b);
    EncodersAgree(b);
  }

  /** A code verifier of 32 random bytes has the 43 characters section 4.1 of RFC 7636 asks for at least. */
  lemma CodeVerifierLength(random: seq<byte>)
    requires |random| == 32
    ensures |UrlEncode(random)| == 43
  {
    EncodedForm(random);
  }

  /** The bits left over at the end are zero. */
  predicate Canonical(v: seq<sextet>) {
    (|v| % 4 == 2 ==> v[|v| - 1] % 16 == 0) && (|v| % 4 == 3 ==> v[|v| - 1] % 4 == 0)
  }

  /** Text is read back into the same text exactly when the bits it leaves over are zero. */
  lemma {:induction false} SextetsOfBytes(v: seq<sextet>)
    requires |v| % 4 != 1
    ensures Sextets(Bytes(v)) == v <==> Canonical(v)
  {
    if |v| >= 4 {
      SextetsOfBytes(v[4..]);
      assert Canonical(v) <==> Canonical(v[4..]);
      hide Canonical;
      hide Sextets;
      hide Bytes;
      var group := [v[0], v[1], v[2], v[3]];
      assert v == group + v[4..];
      FullGroup(v[0], v[1], v[2], v[3], v[4..]);
      SameTail(group, v[4..], Sextets(Bytes(v[4..])));
    } else if |v| >= 2 {
      ShortGroup(v);
    }
  }

  /** Any text a reader accepts is written back unchanged exactly when the bits it leaves over are zero. */
  lemma TextRoundTrip(s: string)
    requires InAlphabet(s, '-', '_') && |s| % 4 != 1
    ensures RawDecode(s).Some?
    ensures RawEncode(RawDecode(s).value) == s <==> Canonical(Values(s, '-', '_'))
  {
    var v := Values(s, '-', '_');
    NoBreaks(s);
    assert Letters(v, '-', '_') == s;
    SextetsOfBytes(v);
    LettersRoundTrip(Sextets(Bytes(v)));
    hide Canonical;
    hide Sextets;
    hide Bytes;
    hide ValueOf;
    hide Letter;
    hide RemoveAll;
  }

  lemma SameTail(group: seq<sextet>, s: seq<sextet>, t: seq<sextet>)
    ensures group + s == group + t <==> s == t
  {
    assert (group + s)[|group|..] == s && (group + t)[|group|..] == t;
  }

  lemma FullGroup(a: sextet, b: sextet, c: sextet, d: sextet, rest: seq<sextet>)
    ensures Sextets(Bytes([a, b, c, d] + rest)) == [a, b, c, d] + Sextets(Bytes(rest))
  {
    hide *;
    BytesOfGroup(a, b, c, d, rest);
    SextetsOfGroup(Byte0(a, b), Byte1(b, c), Byte2(c, d), Bytes(rest));
    SextetsInBytes(a, b, c, d);
  }

  lemma ShortGroup(v: seq<sextet>)
    requires 2 <= |v| <= 3
    ensures Sextets(Bytes(v)) == v <==> Canonical(v)
  {
    var last := if |v| == 3 then v[2] else 0;
    SpareBits(v[0], v[1], last);
    SextetsInBytes(v[0], v[1], last, 0);
    hide Byte0;
    hide Byte1;
    hide Byte2;
    hide Sextet0;
    hide Sextet1;
    hide Sextet2;
    hide Sextet3;
    assert v == if |v| == 2 then [v[0], v[1]] else [v[0], v[1], v[2]];
  }
}
