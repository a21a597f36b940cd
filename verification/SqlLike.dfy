/** What the LIKE patterns of the translator select. */
module SqlLike {
  import opened FilterSyntax
  import opened FilterLexer
  import opened FilterSql

  /** SQLite folds the case of ASCII letters only. */
  predicate SameChar(a: char, b: char) {
    ToLower([a]) == ToLower([b])
  }

  /** `text LIKE pattern`: `%` stands for any text, `_` for any one character. */
  predicate Like(text: string, pattern: string)
    decreases |pattern|, |text|
  {
    if pattern == "" then text == ""
    else if pattern[0] == '%' then Like(text, pattern[1..]) || (text != "" && Like(text[1..], pattern))
    else text != "" && (pattern[0] == '_' || SameChar(text[0], pattern[0])) && Like(text[1..], pattern[1..])
  }

  /** The two texts are the same up to the case of ASCII letters. */
  predicate SameText(a: string, b: string) {
    |a| == |b| && forall i :: 0 <= i < |a| ==> SameChar(a[i], b[i])
  }

  predicate HasPrefix(text: string, value: string) {
    |value| <= |text| && SameText(text[..|value|], value)
  }

  predicate HasSuffix(text: string, value: string) {
    |value| <= |text| && SameText(text[|text| - |value|..], value)
  }

  ghost predicate Contains(text: string, value: string) {
    exists i :: 0 <= i <= |text| && HasPrefix(text[i..], value)
  }

  predicate HasWildcard(value: string) {
    '%' in value || '_' in value
  }

  lemma {:induction false} LikePlain(text: string, value: string)
    requires !HasWildcard(value)
    ensures Like(text, value) <==> SameText(text, value)
    decreases |value|
  {
    if value != "" && text != "" {
      LikePlain(text[1..], value[1..]);
      if SameText(text, value) {
        assert forall i :: 0 <= i < |text| - 1 ==> text[1..][i] == text[i + 1] && value[1..][i] == value[i + 1];
      }
      if SameChar(text[0], value[0]) && SameText(text[1..], value[1..]) {
        forall i | 0 <= i < |text| ensures SameChar(text[i], value[i]) {
          if i > 0 { assert text[i] == text[1..][i - 1] && value[i] == value[1..][i - 1]; }
        }
      }
    }
  }

  lemma {:induction false} LikeAnything(text: string)
    ensures Like(text, "%")
    decreases |text|
  {
    if text != "" {
      LikeAnything(text[1..]);
    }
  }

  lemma {:induction false} LikePrefix(text: string, value: string)
    requires !HasWildcard(value)
    ensures Like(text, value + "%") <==> HasPrefix(text, value)
    decreases |value|
  {
    var pattern := value + "%";
    if value == "" {
      assert pattern == "%";
      LikeAnything(text);
    } else if text != "" {
      assert pattern[1..] == value[1..] + "%";
      LikePrefix(text[1..], value[1..]);
      PrefixStep(text, value);
    }
  }

  lemma PrefixStep(text: string, value: string)
    requires text != "" && value != ""
    ensures HasPrefix(text, value) <==> SameChar(text[0], value[0]) && HasPrefix(text[1..], value[1..])
  {
    if |value| <= |text| {
      var a, b := text[..|value|], text[1..][..|value| - 1];
      assert forall i :: 0 <= i < |b| ==> b[i] == a[i + 1] && value[1..][i] == value[i + 1];
      if SameChar(text[0], value[0]) && SameText(b, value[1..]) {
        forall i | 0 <= i < |a| ensures SameChar(a[i], value[i]) {
          if i > 0 { assert a[i] == b[i - 1] && value[i] == value[1..][i - 1]; }
        }
      }
    }
  }

  /** A leading `%` skips to any later position. */
  lemma {:induction false} LikeSkip(text: string, pattern: string)
    ensures Like(text, "%" + pattern) <==> exists i :: 0 <= i <= |text| && Like(text[i..], pattern)
    decreases |text|
  {
    var full := "%" + pattern;
    assert full[1..] == pattern;
    assert text[0..] == text;
    if text != "" {
      LikeSkip(text[1..], pattern);
      if i :| 0 <= i <= |text| && Like(text[i..], pattern) {
        if i > 0 { assert text[1..][i - 1..] == text[i..]; }
      }
      if j :| 0 <= j <= |text| - 1 && Like(text[1..][j..], pattern) {
        assert text[1..][j..] == text[j + 1..];
      }
    }
  }

  lemma LikeContains(text: string, value: string)
    requires !HasWildcard(value)
    ensures Like(text, "%" + value + "%") <==> Contains(text, value)
  {
    var pattern := value + "%";
    assert "%" + value + "%" == "%" + pattern;
    LikeSkip(text, pattern);
    forall i | 0 <= i <= |text| ensures Like(text[i..], pattern) <==> HasPrefix(text[i..], value) {
      LikePrefix(text[i..], value);
    }
  }

  lemma LikeSuffix(text: string, value: string)
    requires !HasWildcard(value)
    ensures Like(text, "%" + value) <==> HasSuffix(text, value)
  {
    LikeSkip(text, value);
    forall i | 0 <= i <= |text| ensures Like(text[i..], value) <==> SameText(text[i..], value) {
      LikePlain(text[i..], value);
    }
    if HasSuffix(text, value) {
      assert SameText(text[|text| - |value|..], value);
    }
  }

  /** A text that a pattern with wildcards accepts although no wildcard character is in it. */
  function FillWildcards(value: string): string {
    seq(|value|, i requires 0 <= i < |value| => if value[i] in {'%', '_'} then 'a' else value[i])
  }

  lemma {:induction false} FilledMatches(value: string, k: string)
    requires Like("", k)
    ensures Like(FillWildcards(value), value + k)
    decreases |value|
  {
    var text, pattern := FillWildcards(value), value + k;
    if value == "" {
      assert pattern == k;
    } else {
      FilledMatches(value[1..], k);
      assert text[1..] == FillWildcards(value[1..]);
      assert pattern[1..] == value[1..] + k;
      if value[0] == '%' {
        LikeSkipOne(text, pattern[1..]);
        assert pattern == "%" + pattern[1..];
      }
    }
  }

  /** `%` may stand for one character. */
  lemma {:induction false} LikeSkipOne(text: string, pattern: string)
    requires text != "" && Like(text[1..], pattern)
    ensures Like(text, "%" + pattern)
  {
    LikeSkip(text, pattern);
  }

  lemma FilledDiffers(value: string)
    requires HasWildcard(value)
    ensures !SameText(FillWildcards(value), value)
  {
    var i :| 0 <= i < |value| && value[i] in {'%', '_'};
    assert ToLower(['a']) == ['a'] && ToLower([value[i]]) == [value[i]];
    assert !SameChar(FillWildcards(value)[i], value[i]);
  }

  /**
   * `co`, `sw` and `ew` mean containment, prefix and suffix on every column text exactly for
   * the values without `%` and `_`: the translator binds the value without escaping it.
   */
  lemma PatternsExact(value: string)
    ensures (forall text :: Like(text, "%" + value + "%") <==> Contains(text, value)) <==> !HasWildcard(value)
    ensures (forall text :: Like(text, value + "%") <==> HasPrefix(text, value)) <==> !HasWildcard(value)
    ensures (forall text :: Like(text, "%" + value) <==> HasSuffix(text, value)) <==> !HasWildcard(value)
  {
    if HasWildcard(value) {
      var text := FillWildcards(value);
      FilledDiffers(value);
      LikeAnything("");
      FilledMatches(value, "%");
      FilledMatches(value, "");
      assert value + "" == value;
      assert text[..|value|] == text && text[0..] == text;
      assert !HasPrefix(text, value) && !HasSuffix(text, value);
      assert "%" + value + "%" == "%" + (value + "%");
      LikeSkip(text, value + "%");
      LikeSkip(text, value);
      assert Like(text[0..], value + "%");
      assert Like(text[0..], value);
      forall i | 0 <= i <= |text| ensures !HasPrefix(text[i..], value) {
        if i == 0 { assert text[i..] == text; }
      }
      assert !Contains(text, value);
    } else {
      forall text
        ensures Like(text, "%" + value + "%") <==> Contains(text, value)
        ensures Like(text, value + "%") <==> HasPrefix(text, value)
        ensures Like(text, "%" + value) <==> HasSuffix(text, value)
      {
        LikeContains(text, value);
        LikePrefix(text, value);
        LikeSuffix(text, value);
      }
    }
  }

  /** The same for the patterns the translator binds for `co`, `sw` and `ew`. */
  lemma TextOperatorsExact(v: Value)
    ensures var value := ValueText(v);
            && ((forall text :: Like(text, CompareSql(CoOp, v).1.text) <==> Contains(text, value)) <==> !HasWildcard(value))
            && ((forall text :: Like(text, CompareSql(SwOp, v).1.text) <==> HasPrefix(text, value)) <==> !HasWildcard(value))
            && ((forall text :: Like(text, CompareSql(EwOp, v).1.text) <==> HasSuffix(text, value)) <==> !HasWildcard(value))
  {
    PatternsExact(ValueText(v));
  }
}
