/** The text of bytes, bit by bit and letter by letter (sections 4 and 5 of RFC 4648). */
module Base64Bits {
  import opened Base64Url

  /** The alphabet, in the order of table 2. */
  const UPPER := "ABCDEFGHIJKLMNOPQRSTUVWXYZ"
  const LOWER := "abcdefghijklmnopqrstuvwxyz"
  const DIGITS := "0123456789"

  /** The low bits of a number, the highest one first. */
  function Bits(n: nat, width: nat): (bits: seq<bool>)
    ensures |bits| == width
  {
    if width == 0 then [] else Bits(n / 2, width - 1) + [n % 2 == 1]
  }

  function ByteBits(b: seq<byte>): seq<bool> {
    if b == [] then [] else Bits(b[0], 8) + ByteBits(b[1..])
  }

  function SextetBits(v: seq<sextet>): seq<bool> {
    if v == [] then [] else Bits(v[0], 6) + SextetBits(v[1..])
  }

  /** The place of a letter in the alphabet. */
  predicate Stands(c: char, v: sextet) {
    if v < 26 then c == UPPER[v]
    else if v < 52 then c == LOWER[v - 26]
    else if v < 62 then c == DIGITS[v - 52]
    else c == "-_"[v - 62]
  }

  lemma TwoBits(n: nat, width: nat)
    ensures Bits(n, width + 2) == Bits(n / 4, width) + Bits(n % 4, 2)
  {
    assert n / 2 / 2 == n / 4 && n % 4 / 2 % 2 == n / 2 % 2 && n % 4 % 2 == n % 2;
    assert Bits(n, width + 2) == Bits(n / 2, width + 1) + [n % 2 == 1];
    assert Bits(n / 2, width + 1) == Bits(n / 4, width) + [n / 2 % 2 == 1];
    assert Bits(n % 4, 2) == Bits(n % 4 / 2, 1) + [n % 2 == 1];
    assert Bits(n % 4 / 2, 1) == [] + [n % 4 / 2 % 2 == 1];
  }

  lemma FourBits(n: nat, width: nat)
    ensures Bits(n, width + 4) == Bits(n / 16, width) + Bits(n % 16, 4)
  {
    TwoBits(n, width + 2);
    TwoBits(n / 4, width);
    TwoBits(n % 16, 2);
    assert n / 4 / 4 == n / 16 && n % 16 / 4 == n / 4 % 4 && n % 16 % 4 == n % 4;
    hide Bits;
  }

  lemma SixBits(n: nat, width: nat)
    ensures Bits(n, width + 6) == Bits(n / 64, width) + Bits(n % 64, 6)
  {
    TwoBits(n, width + 4);
    FourBits(n / 4, width);
    TwoBits(n % 64, 4);
    assert n / 4 / 16 == n / 64 && n % 64 / 4 == n / 4 % 16 && n % 64 % 4 == n % 4;
    hide Bits;
  }

  lemma SextetParts(x: byte, y: byte)
    ensures Sextet0(x) == x / 4
    ensures Sextet1(x, y) / 16 == x % 4 && Sextet1(x, y) % 16 == y / 16
    ensures Sextet2(x, y) / 4 == x % 16 && Sextet2(x, y) % 4 == y / 64
    ensures Sextet3(x) == x % 64
  {
  }

  lemma FirstSextets(x: byte, y: byte)
    ensures Bits(Sextet0(x), 6) + Bits(Sextet1(x, y), 6) == Bits(x, 8) + Bits(y / 16, 4)
  {
    SextetParts(x, y);
    hide *;
    TwoBits(x, 6);
    FourBits(Sextet1(x, y), 2);
    var p, q, r := Bits(x / 4, 6), Bits(x % 4, 2), Bits(y / 16, 4);
    assert p + (q + r) == (p + q) + r;
  }

  lemma LastSextets(y: byte, z: byte)
    ensures Bits(y / 16, 4) + Bits(Sextet2(y, z), 6) == Bits(y, 8) + Bits(z / 64, 2)
    ensures Bits(z / 64, 2) + Bits(Sextet3(z), 6) == Bits(z, 8)
  {
    SextetParts(y, z);
    SextetParts(z, 0);
    hide *;
    FourBits(y, 4);
    TwoBits(Sextet2(y, z), 4);
    SixBits(z, 2);
    var p, q, r := Bits(y / 16, 4), Bits(y % 16, 4), Bits(z / 64, 2);
    assert p + (q + r) == (p + q) + r;
  }

  lemma GroupBits(x: byte, y: byte, z: byte)
    ensures Bits(Sextet0(x), 6) + Bits(Sextet1(x, y), 6) + Bits(Sextet2(y, z), 6) + Bits(Sextet3(z), 6)
            == Bits(x, 8) + Bits(y, 8) + Bits(z, 8)
  {
    hide *;
    FirstSextets(x, y);
    LastSextets(y, z);
    var b, c, d := Bits(x, 8), Bits(y, 8), Bits(Sextet3(z), 6);
    var p, q, r := Bits(y / 16, 4), Bits(Sextet2(y, z), 6), Bits(z / 64, 2);
    assert b + p + q + d == b + (p + q) + d == b + (c + r) + d == b + c + (r + d);
  }

  lemma NoBits(width: nat)
    ensures forall i :: 0 <= i < width ==> !Bits(0, width)[i]
  {
    if width > 0 {
      NoBits(width - 1);
    }
  }

  /** The bits that fill up the last group. */
  function Filling(length: nat): nat {
    if length % 3 == 1 then 4 else if length % 3 == 2 then 2 else 0
  }

  lemma {:induction false} BitsOfSextets(b: seq<byte>)
    ensures SextetBits(Sextets(b)) == ByteBits(b) + Bits(0, Filling(|b|))
  {
    hide Bits;
    hide Sextet0;
    hide Sextet1;
    hide Sextet2;
    hide Sextet3;
    hide SextetBits;
    if |b| >= 3 {
      BitsOfSextets(b[3..]);
      GroupBits(b[0], b[1], b[2]);
      GroupSpelled(Sextet0(b[0]), Sextet1(b[0], b[1]), Sextet2(b[1], b[2]), Sextet3(b[2]), Sextets(b[3..]));
      GroupOfBytes(b);
      hide ByteBits;
      hide Sextets;
      var whole := Bits(b[0], 8) + Bits(b[1], 8) + Bits(b[2], 8);
      var rest, filling := ByteBits(b[3..]), Bits(0, Filling(|b|));
      assert whole + (rest + filling) == (whole + rest) + filling;
    } else if |b| == 2 {
      TwoBytes(b[0], b[1]);
      assert b == [b[0], b[1]];
    } else if |b| == 1 {
      OneByte(b[0]);
      assert b == [b[0]];
    } else {
      NothingSpelled();
    }
  }

  lemma NothingSpelled()
    ensures SextetBits([]) == ByteBits([]) + Bits(0, 0)
  {
  }

  lemma FirstByte(x: byte, rest: seq<byte>)
    ensures ByteBits([x] + rest) == Bits(x, 8) + ByteBits(rest)
    ensures ByteBits([x]) == Bits(x, 8)
  {
    hide Bits;
    assert ([x] + rest)[1..] == rest && [x][1..] == [];
    assert Bits(x, 8) + [] == Bits(x, 8);
  }

  lemma GroupOfBytes(b: seq<byte>)
    requires |b| >= 3
    ensures ByteBits(b) == Bits(b[0], 8) + Bits(b[1], 8) + Bits(b[2], 8) + ByteBits(b[3..])
  {
    hide *;
    FirstByte(b[0], b[1..]);
    assert b == [b[0]] + b[1..];
    PairOfBytes(b[1..]);
    assert b[1..][2..] == b[3..];
    var x, y, z, rest := Bits(b[0], 8), Bits(b[1], 8), Bits(b[2], 8), ByteBits(b[3..]);
    assert x + (y + z + rest) == x + y + z + rest;
  }

  lemma PairOfBytes(b: seq<byte>)
    requires |b| >= 2
    ensures ByteBits(b) == Bits(b[0], 8) + Bits(b[1], 8) + ByteBits(b[2..])
  {
    hide *;
    FirstByte(b[0], b[1..]);
    FirstByte(b[1], b[2..]);
    assert b == [b[0]] + b[1..] && b[1..] == [b[1]] + b[2..];
    var x, y, rest := Bits(b[0], 8), Bits(b[1], 8), ByteBits(b[2..]);
    assert x + (y + rest) == x + y + rest;
  }

  lemma OneByte(x: byte)
    ensures SextetBits([Sextet0(x), Sextet1(x, 0)]) == ByteBits([x]) + Bits(0, 4)
  {
    hide Bits;
    hide Sextet0;
    hide Sextet1;
    FirstSextets(x, 0);
    SpelledTwice(Sextet0(x), Sextet1(x, 0));
    FirstByte(x, []);
  }

  lemma TwoBytes(x: byte, y: byte)
    ensures SextetBits([Sextet0(x), Sextet1(x, y), Sextet2(y, 0)]) == ByteBits([x, y]) + Bits(0, 2)
  {
    hide Bits;
    FirstSextets(x, y);
    LastSextets(y, 0);
    hide Sextet0;
    hide Sextet1;
    hide Sextet2;
    SpelledTwice(Sextet1(x, y), Sextet2(y, 0));
    FirstByte(x, [y]);
    FirstByte(y, []);
    assert [x, y] == [x] + [y];
    assert [Sextet0(x), Sextet1(x, y), Sextet2(y, 0)][1..] == [Sextet1(x, y), Sextet2(y, 0)];
    hide SextetBits;
    var a, b, c := Bits(Sextet0(x), 6), Bits(Sextet1(x, y), 6), Bits(Sextet2(y, 0), 6);
    var p, q, r := Bits(x, 8), Bits(y / 16, 4), Bits(y, 8);
    assert ByteBits([x, y]) == p + r;
    assert a + (b + c) == (a + b) + c == p + q + c == p + (q + c) == p + (r + Bits(0, 2)) == p + r + Bits(0, 2);
  }

  lemma SpelledTwice(v: sextet, w: sextet)
    ensures SextetBits([v, w]) == Bits(v, 6) + Bits(w, 6)
  {
    assert [v, w][1..] == [w];
    assert [w][1..] == [];
    assert SextetBits([w]) == Bits(w, 6) + [];
  }

  lemma GroupSpelled(v0: sextet, v1: sextet, v2: sextet, v3: sextet, rest: seq<sextet>)
    ensures SextetBits([v0, v1, v2, v3] + rest) == Bits(v0, 6) + Bits(v1, 6) + Bits(v2, 6) + Bits(v3, 6) + SextetBits(rest)
  {
    hide Bits;
    var v := [v0, v1, v2, v3] + rest;
    var a, b, c, d, e := Bits(v0, 6), Bits(v1, 6), Bits(v2, 6), Bits(v3, 6), SextetBits(rest);
    assert v[1..] == [v1, v2, v3] + rest && v[1..][1..] == [v2, v3] + rest && v[1..][1..][1..] == [v3] + rest;
    assert v[1..][1..][1..][1..] == rest;
    assert SextetBits([v3] + rest) == d + e;
    assert SextetBits([v2, v3] + rest) == c + (d + e);
    assert SextetBits([v1, v2, v3] + rest) == b + (c + (d + e));
    assert a + (b + (c + (d + e))) == a + b + c + d + e;
  }

  lemma LetterStands(v: sextet)
    ensures Stands(Letter(v, '-', '_'), v)
  {
    UpperLetters();
    LowerLetters();
    if 52 <= v < 62 {
      assert DIGITS == ['0', '1', '2', '3', '4', '5', '6', '7', '8', '9'];
    }
  }

  lemma UpperLetters()
    ensures forall i :: 0 <= i < 26 ==> UPPER[i] == (i + 'A' as int) as char
  {
  }

  lemma LowerLetters()
    ensures forall i :: 0 <= i < 26 ==> LOWER[i] == (i + 'a' as int) as char
  {
  }

  /**
   * The text is that of the standard: six bits a letter in the order of the bytes, zeros at the
   * end, and each letter at its place in the alphabet. Both encoders write it.
   */
  lemma SpelledOut(b: seq<byte>) returns (v: seq<sextet>)
    ensures SextetBits(v) == ByteBits(b) + Bits(0, Filling(|b|))
    ensures forall i :: 0 <= i < Filling(|b|) ==> !Bits(0, Filling(|b|))[i]
    ensures |RawEncode(b)| == |v| && UrlEncode(b) == RawEncode(b)
    ensures forall i :: 0 <= i < |v| ==> Stands(RawEncode(b)[i], v[i])
  {
    v := Sextets(b);
    BitsOfSextets(b);
    NoBits(Filling(|b|));
    EncodersAgree(b);
    hide Sextets;
    hide UrlEncode;
    hide Bits;
    forall i | 0 <= i < |v| ensures Stands(RawEncode(b)[i], v[i]) {
      LetterStands(v[i]);
    }
  }
}
