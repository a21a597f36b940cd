/** RSA public keys as JSON Web Keys (section 6.3 of RFC 7518): export and import. */
module Jwk {
  import opened Wrappers
  import opened Base64Url
  import opened Decimal

  datatype Jwk = Jwk(kty: string, use: string, kid: string, alg: string, n: string, e: string)

  datatype RsaPublicKey = RsaPublicKey(n: int, e: int)

  datatype KeyError = MissingParameters | BadModulus | BadExponent

  const TWO_64 := 0x1_0000_0000_0000_0000

  /** The value of an int64 after wrap-around. */
  function Wrap(x: int): (r: int)
    ensures IsInt64(r) && (IsInt64(x) ==> r == x)
  {
    (x + MAX_INT64 + 1) % TWO_64 - MAX_INT64 - 1
  }

  function Abs(x: int): nat {
    if x < 0 then -x else x
  }

  /** Big-endian, without leading zeros; zero has no bytes. */
  function BigEndian(n: nat): seq<byte> {
    if n == 0 then [] else BigEndian(n / 256) + [n % 256]
  }

  function NumberOf(b: seq<byte>): nat {
    if b == [] then 0 else NumberOf(b[..|b| - 1]) * 256 + b[|b| - 1]
  }

  function FromRsaPublicKey(key: RsaPublicKey, kid: string): Jwk {
    Jwk("RSA", "sig", kid, "RS256", RawEncode(BigEndian(Abs(key.n))), RawEncode(BigEndian(Abs(key.e))))
  }

  /** The exponent accumulated byte by byte in an int64. */
  function WrappedExponent(b: seq<byte>): int {
    if b == [] then 0 else Wrap(Wrap(WrappedExponent(b[..|b| - 1]) * 256) + b[|b| - 1])
  }

  method ToRsaPublicKey(jwk: Jwk) returns (r: Result<RsaPublicKey, KeyError>)
    ensures jwk.n == "" || jwk.e == "" ==> r == Err(MissingParameters)
    ensures jwk.n != "" && jwk.e != "" && RawDecode(jwk.n).None? ==> r == Err(BadModulus)
    ensures jwk.n != "" && jwk.e != "" && RawDecode(jwk.n).Some? && RawDecode(jwk.e).None? ==> r == Err(BadExponent)
    ensures jwk.n != "" && jwk.e != "" && RawDecode(jwk.n).Some? && RawDecode(jwk.e).Some? ==>
              r == Ok(RsaPublicKey(NumberOf(RawDecode(jwk.n).value), Wrap(NumberOf(RawDecode(jwk.e).value))))
  {
    if jwk.n == "" || jwk.e == "" {
      return Err(MissingParameters);
    }
    var nBytes := RawDecode(jwk.n);
    if nBytes.None? {
      return Err(BadModulus);
    }
    var eBytes := RawDecode(jwk.e);
    if eBytes.None? {
      return Err(BadExponent);
    }
    var e := ReadExponent(eBytes.value);
    return Ok(RsaPublicKey(NumberOf(nBytes.value), e));
  }

  method ReadExponent(b: seq<byte>) returns (e: int)
    ensures e == Wrap(NumberOf(b))
  {
    e := 0;
    for i := 0 to |b|
      invariant e == WrappedExponent(b[..i])
    {
      assert b[..i + 1][..i] == b[..i];
      e := Wrap(Wrap(e * 256) + b[i]);
    }
    assert b[..|b|] == b;
    WrappedExponentIsWrap(b);
  }

  // ------------------------------------------------------------------ laws

  lemma WrapMultiple(x: int, k: int)
    ensures Wrap(x + k * TWO_64) == Wrap(x)
  {
    var y := x + MAX_INT64 + 1;
    assert (y + k * TWO_64) % TWO_64 == y % TWO_64;
  }

  /** Wrapping at every step is wrapping once at the end. */
  lemma {:induction false} WrappedExponentIsWrap(b: seq<byte>)
    ensures WrappedExponent(b) == Wrap(NumberOf(b))
  {
    if b != [] {
      var n := |b| - 1;
      WrappedExponentIsWrap(b[..n]);
      var x := NumberOf(b[..n]);
      var k := (x + MAX_INT64 + 1) / TWO_64;
      assert Wrap(x) == x - k * TWO_64;
      var y := Wrap(x) * 256;
      var j := (y + MAX_INT64 + 1) / TWO_64;
      assert Wrap(y) == y - j * TWO_64;
      assert Wrap(y) + b[n] == x * 256 + b[n] + (-256 * k - j) * TWO_64;
      WrapMultiple(x * 256 + b[n], -256 * k - j);
    }
  }

  lemma {:induction false} NumberOfBigEndian(n: nat)
    ensures NumberOf(BigEndian(n)) == n
    ensures n > 0 ==> BigEndian(n) != [] && BigEndian(n)[0] != 0
  {
    if n > 0 {
      NumberOfBigEndian(n / 256);
      assert BigEndian(n)[..|BigEndian(n)| - 1] == BigEndian(n / 256);
    }
  }

  lemma {:induction false} PrefixesAreSmaller(b: seq<byte>, k: nat)
    requires k <= |b|
    ensures NumberOf(b[..k]) <= NumberOf(b)
  {
    if k < |b| {
      PrefixesAreSmaller(b[..|b| - 1], k);
      assert b[..|b| - 1][..k] == b[..k];
    } else {
      assert b[..k] == b;
    }
  }

  /** No step of the loop overflows when the exponent fits: both the product and the sum are exact. */
  lemma ExponentNeverOverflows(b: seq<byte>, k: nat)
    requires NumberOf(b) <= MAX_INT64 && k < |b|
    ensures 0 <= WrappedExponent(b[..k]) == NumberOf(b[..k])
    ensures WrappedExponent(b[..k]) * 256 <= WrappedExponent(b[..k]) * 256 + b[k] <= MAX_INT64
  {
    PrefixesAreSmaller(b, k + 1);
    PrefixesAreSmaller(b, k);
    assert b[..k + 1][..k] == b[..k];
    assert NumberOf(b[..k + 1]) == NumberOf(b[..k]) * 256 + b[k];
    WrappedExponentIsWrap(b[..k]);
    hide NumberOf;
    hide WrappedExponent;
  }

  /** The imported exponent is the one encoded exactly when that fits an int64; a larger one wraps silently. */
  lemma ExponentExactly(b: seq<byte>)
    ensures WrappedExponent(b) == NumberOf(b) <==> NumberOf(b) <= MAX_INT64
  {
    WrappedExponentIsWrap(b);
  }

  /** What the import makes of an exported key. */
  function Imported(key: RsaPublicKey): Result<RsaPublicKey, KeyError> {
    if key.n == 0 || key.e == 0 then Err(MissingParameters) else Ok(RsaPublicKey(Abs(key.n), Wrap(Abs(key.e))))
  }

  method ExportThenImport(key: RsaPublicKey, kid: string) returns (r: Result<RsaPublicKey, KeyError>)
    ensures r == Imported(key)
  {
    var jwk := FromRsaPublicKey(key, kid);
    ExportedText(Abs(key.n));
    ExportedText(Abs(key.e));
    r := ToRsaPublicKey(jwk);
  }

  lemma ExportedText(n: nat)
    ensures RawEncode(BigEndian(n)) == "" <==> n == 0
    ensures RawDecode(RawEncode(BigEndian(n))).Some? && NumberOf(RawDecode(RawEncode(BigEndian(n))).value) == n
  {
    NumberOfBigEndian(n);
    RoundTrip(BigEndian(n));
  }

  /**
   * A key survives export and import exactly when its modulus is positive and its exponent is
   * positive (or the one negative number that is its own wrapped absolute value).
   */
  lemma SurvivesExactly(key: RsaPublicKey)
    requires IsInt64(key.e)
    ensures Imported(key) == Ok(key) <==> key.n > 0 && (key.e > 0 || key.e == -MAX_INT64 - 1)
  {
    if key.e == -MAX_INT64 - 1 {
      WrapMultiple(-MAX_INT64 - 1, 1);
    }
  }
}
