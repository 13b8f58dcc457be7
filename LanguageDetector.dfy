/** `is_korean`: a search for one character of the regular-expression class
    `[ㄱ-ㅎ|가-힣]`. Inside a character class `|` is an ordinary character, and
    the range ㄱ-ㅎ stops at U+314E, so the class is exactly: the Hangul
    compatibility consonants U+3131..U+314E (not the vowels ㅏ..ㅣ), the
    precomposed syllables U+AC00..U+D7A3, and the vertical bar. */
module LanguageDetector {

  /** One character of `[ㄱ-ㅎ|가-힣]`. */
  predicate InHangulClass(c: char) {
    || ('\U{3131}' <= c <= '\U{314E}')
    || ('\U{AC00}' <= c <= '\U{D7A3}')
    || c == '|'
  }

  /** `bool(re.search('[ㄱ-ㅎ|가-힣]+', text))`: the trailing `+` cannot change
      whether a match exists, so the text is "Korean" exactly when one of its
      characters is in the class. */
  function IsKorean(text: string): (r: bool)
    ensures r <==> exists t :: 0 <= t < |text| && InHangulClass(text[t])
  {
    if text == [] then false
    else if InHangulClass(text[0]) then true
    else
      var rest := IsKorean(text[1..]);
      assert forall t :: 1 <= t < |text| ==> text[t] == text[1..][t - 1];
      rest
  }

  /** Text made only of ASCII characters other than `|` is never Korean. */
  lemma AsciiIsNotKorean(text: string)
    requires forall t :: 0 <= t < |text| ==> text[t] < '\U{80}' && text[t] != '|'
    ensures !IsKorean(text)
  {
  }

  /** The detector is monotone under concatenation: appending text to Korean
      text keeps it Korean, and two non-Korean texts stay non-Korean together. */
  lemma KoreanConcat(a: string, b: string)
    ensures IsKorean(a + b) <==> IsKorean(a) || IsKorean(b)
  {
    if IsKorean(a + b) {
      var t :| 0 <= t < |a + b| && InHangulClass((a + b)[t]);
      if t >= |a| {
        assert b[t - |a|] == (a + b)[t];
      }
    }
    if IsKorean(a) {
      var t :| 0 <= t < |a| && InHangulClass(a[t]);
      assert (a + b)[t] == a[t];
    }
    if IsKorean(b) {
      var t :| 0 <= t < |b| && InHangulClass(b[t]);
      assert (a + b)[|a| + t] == b[t];
    }
  }

  /** The as-written class: a bare `|` counts as Korean, the vowel ㅏ (U+314F)
      does not, and the first and last syllables 가 and 힣 do. */
  lemma ClassBoundaries()
    ensures IsKorean("|")
    ensures !IsKorean("\U{314F}")
    ensures IsKorean("\U{AC00}") && IsKorean("\U{D7A3}") && IsKorean("\U{3131}") && IsKorean("\U{314E}")
    ensures !IsKorean("\U{3130}") && !IsKorean("\U{D7A4}")
  {
  }
}
