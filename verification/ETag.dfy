/** Entity tags of resource versions. */
module ETag {
  import opened Wrappers
  import Decimal

  /** `fmt.Sprintf("W/\"%d\"", version)` */
  function GenerateETag(version: int): string {
    "W/\"" + (Decimal.IntText(version) + "\"")
  }

  /** A scan stores the number as soon as it is read, even when the closing quote is missing. */
  datatype Scan = Scan(number: Option<int>, complete: bool)

  function DigitCount(s: string): (n: nat)
    ensures n <= |s|
  {
    if s == "" || !Decimal.IsDigit(s[0]) then 0 else 1 + DigitCount(s[1..])
  }

  /** `fmt.Sscanf(etag, prefix + "%d\"", &version)`; input after the quote is not looked at. */
  function ScanNumber(etag: string, prefix: string): Scan {
    if !(prefix <= etag) then Scan(None, false)
    else
      var rest := etag[|prefix|..];
      var sign := if rest != "" && rest[0] in {'+', '-'} then 1 else 0;
      var end := sign + DigitCount(rest[sign..]);
      match Decimal.ParseInt64(rest[..end])
      case None => Scan(None, false)
      case Some(n) => Scan(Some(n), end < |rest| && rest[end] == '\"')
  }

  /** The version (0 when none was read) and whether the tag was well formed. */
  function ParseETag(etag: string): (int, bool) {
    var weak := ScanNumber(etag, "W/\"");
    if weak.complete then (weak.number.value, true)
    else
      var strong := ScanNumber(etag, "\"");
      var read := if strong.number.Some? then strong.number else weak.number;
      (if read.Some? then read.value else 0, strong.complete)
  }

  lemma {:induction false} DigitCountExact(digits: string, rest: string)
    requires Decimal.AllDigits(digits)
    requires rest == "" || !Decimal.IsDigit(rest[0])
    ensures DigitCount(digits + rest) == |digits|
  {
    if digits == "" {
      assert digits + rest == rest;
    } else {
      DigitCountExact(digits[1..], rest);
      assert (digits + rest)[1..] == digits[1..] + rest;
    }
  }

  lemma ScanExact(prefix: string, version: int, tail: string)
    requires Decimal.IsInt64(version) && (tail == "" || !Decimal.IsDigit(tail[0]))
    ensures ScanNumber(prefix + (Decimal.IntText(version) + tail), prefix) == Scan(Some(version), tail != "" && tail[0] == '\"')
  {
    var text := Decimal.IntText(version);
    var rest := text + tail;
    Decimal.IntRoundTrip(version);
    assert (prefix + rest)[|prefix|..] == rest;
    var sign := if text[0] in {'+', '-'} then 1 else 0;
    var digits := text[sign..];
    assert Decimal.AllDigits(digits) by {
      if version < 0 {
        assert text[1..] == Decimal.NatText(-version);
      }
    }
    assert rest[sign..] == digits + tail;
    DigitCountExact(digits, tail);
    assert rest[..|text|] == text;
  }

  /** A weak or a strong tag, whatever follows it, is read as its version; without its closing quote it is not well formed. */
  lemma TagsRead(version: int, tail: string)
    requires Decimal.IsInt64(version) && (tail == "" || !Decimal.IsDigit(tail[0]))
    ensures ParseETag("W/\"" + (Decimal.IntText(version) + tail)) == (version, tail != "" && tail[0] == '\"')
    ensures ParseETag("\"" + (Decimal.IntText(version) + tail)) == (version, tail != "" && tail[0] == '\"')
  {
    hide Decimal.IntText;
    ScanExact("W/\"", version, tail);
    ScanExact("\"", version, tail);
    var rest := Decimal.IntText(version) + tail;
    StrongIsNotWeak("\"" + rest);
    WeakIsNotStrong("W/\"" + rest);
    hide ScanNumber;
  }

  lemma StrongIsNotWeak(etag: string)
    requires "\"" <= etag
    ensures ScanNumber(etag, "W/\"") == Scan(None, false)
  {
    assert etag[0] == '\"' && "W/\""[0] == 'W';
  }

  lemma WeakIsNotStrong(etag: string)
    requires "W/\"" <= etag
    ensures ScanNumber(etag, "\"") == Scan(None, false)
  {
    assert etag[0] == 'W';
  }

  /** Any other text names no version. */
  lemma OtherTags(etag: string)
    requires !("W/\"" <= etag) && !("\"" <= etag)
    ensures ParseETag(etag) == (0, false)
  {
  }

  /** Reading a generated tag gives the version back, for every 64-bit version. */
  lemma ParseInvertsGenerate(version: int)
    requires Decimal.IsInt64(version)
    ensures ParseETag(GenerateETag(version)) == (version, true)
  {
    TagsRead(version, "\"");
  }

  /** Different versions have different tags. */
  lemma TagsAreInjective(v: int, w: int)
    requires Decimal.IsInt64(v) && Decimal.IsInt64(w) && GenerateETag(v) == GenerateETag(w)
    ensures v == w
  {
    ParseInvertsGenerate(v);
    ParseInvertsGenerate(w);
  }
}
