/** E-mail resolution for a qualifying channel: the first match of the
    pattern `[a-zA-Z0-9._%+-]+@[a-zA-Z0-9.-]+\.[a-zA-Z]{2,}` in the channel
    description, verbatim, and otherwise `extract_email_ai`, which asks a
    text-generation model and falls back to fixed sentinel strings. */
module EmailExtractor {
  import opened Wrappers
  import opened Text

  // ---------------------------------------------------------------------
  // The pattern, read as a concatenation of character classes
  // ---------------------------------------------------------------------

  predicate IsAsciiLetter(c: char) { ('a' <= c <= 'z') || ('A' <= c <= 'Z') }

  predicate IsAsciiDigit(c: char) { '0' <= c <= '9' }

  /** The three character classes of the pattern. */
  datatype CharClass =
    | Local   // [a-zA-Z0-9._%+-]
    | Domain  // [a-zA-Z0-9.-]
    | Letter  // [a-zA-Z]

  predicate InClass(c: char, k: CharClass) {
    match k
    case Local => IsAsciiLetter(c) || IsAsciiDigit(c) || c == '.' || c == '_' || c == '%' || c == '+' || c == '-'
    case Domain => IsAsciiLetter(c) || IsAsciiDigit(c) || c == '.' || c == '-'
    case Letter => IsAsciiLetter(c)
  }

  /** Every character of `s[lo..hi]` is in class `k`. */
  ghost predicate AllIn(s: string, lo: int, hi: int, k: CharClass)
    requires 0 <= lo <= hi <= |s|
  {
    forall t :: lo <= t < hi ==> InClass(s[t], k)
  }

  /** `s[i..j]` matches the pattern with the local part `s[i..k]`, `@` at
      `k`, the domain `s[k+1..e]`, the dot at `e` and the final label
      `s[e+1..j]` of at least two letters. */
  ghost predicate MatchSplit(s: string, i: int, k: int, e: int, j: int) {
    && 0 <= i < k
    && k + 1 < e
    && e + 3 <= j <= |s|
    && AllIn(s, i, k, Local)
    && s[k] == '@'
    && AllIn(s, k + 1, e, Domain)
    && s[e] == '.'
    && AllIn(s, e + 1, j, Letter)
  }

  /** `s[i..j]` is a match of the pattern. */
  ghost predicate MatchAt(s: string, i: int, j: int) {
    exists k, e :: MatchSplit(s, i, k, e, j)
  }

  // ---------------------------------------------------------------------
  // The matcher: what a backtracking engine does from each start position
  // ---------------------------------------------------------------------

  /** The end of the longest run of class-`k` characters starting at `i`
      (a greedy `[...]+` before it backtracks). */
  function RunEnd(s: string, i: nat, k: CharClass): (r: nat)
    requires i <= |s|
    ensures i <= r <= |s|
    ensures AllIn(s, i, r, k)
    ensures r == |s| || !InClass(s[r], k)
    decreases |s| - i
  {
    if i < |s| && InClass(s[i], k) then RunEnd(s, i + 1, k) else i
  }

  /** `\.[a-zA-Z]{2,}` can follow at position `e`. */
  predicate LabelAt(s: string, e: nat)
    requires e < |s|
  {
    s[e] == '.' && RunEnd(s, e + 1, Letter) >= e + 3
  }

  /** Backtracking the greedy domain run: the last position `e` in
      `[lo, hi)` where `\.[a-zA-Z]{2,}` can follow. */
  function LastLabel(s: string, lo: nat, hi: nat): (r: Option<nat>)
    requires lo <= hi <= |s|
    ensures r.Some? ==> lo <= r.value < hi && LabelAt(s, r.value)
    ensures forall e :: lo <= e < hi && LabelAt(s, e) ==> r.Some? && e <= r.value
  {
    if hi == lo then None
    else if LabelAt(s, hi - 1) then Some(hi - 1)
    else LastLabel(s, lo, hi - 1)
  }

  /** The end of the match the engine reports when it tries start `i`,
      if there is one. */
  function MatchEndAt(s: string, i: nat): Option<nat>
    requires i <= |s|
  {
    var k := RunEnd(s, i, Local);
    if k == i || k == |s| || s[k] != '@' then None
    else
      var m := RunEnd(s, k + 1, Domain);
      if m < k + 2 then None
      else
        match LastLabel(s, k + 2, m)
        case None => None
        case Some(e) => Some(RunEnd(s, e + 1, Letter))
  }

  /** A run of class-`k` characters reaching `hi` makes the maximal run at
      least that long. */
  lemma RunEndCovers(s: string, lo: nat, hi: nat, k: CharClass)
    requires lo <= hi <= |s| && AllIn(s, lo, hi, k)
    ensures RunEnd(s, lo, k) >= hi
  {
  }

  /** What the engine reports from start `i` is a match. */
  lemma MatchEndAtSound(s: string, i: nat)
    requires i <= |s| && MatchEndAt(s, i).Some?
    ensures MatchAt(s, i, MatchEndAt(s, i).value)
  {
    var k := RunEnd(s, i, Local);
    var m := RunEnd(s, k + 1, Domain);
    var e := LastLabel(s, k + 2, m).value;
    var j := RunEnd(s, e + 1, Letter);
    assert AllIn(s, k + 1, e, Domain);
    assert MatchSplit(s, i, k, e, j);
  }

  /** Every match from start `i` is found by the engine, and none is longer
      than the one it reports (the greedy choice is the longest). */
  lemma MatchEndAtComplete(s: string, i: nat, j: int)
    requires i <= |s| && MatchAt(s, i, j)
    ensures MatchEndAt(s, i).Some? && j <= MatchEndAt(s, i).value
  {
    var k', e' :| MatchSplit(s, i, k', e', j);
    LocalRunEndsAtAt(s, i, k');
    var k := RunEnd(s, i, Local);
    var m := RunEnd(s, k + 1, Domain);
    LabelAfterDomain(s, k, e', j);
    var e := LastLabel(s, k + 2, m).value;
    LaterLabelIsLonger(s, e', e, j);
  }

  /** The greedy local run from `i` ends exactly at an '@' that a local
      part reaches. */
  lemma LocalRunEndsAtAt(s: string, i: nat, k: nat)
    requires i < k < |s| && AllIn(s, i, k, Local) && s[k] == '@'
    ensures RunEnd(s, i, Local) == k
  {
    RunEndCovers(s, i, k, Local);
    assert !InClass(s[k], Local);
  }

  /** A dot at `e` that ends a domain part after the '@' at `k` lies inside
      the greedy domain run, and is a place where `\.[a-zA-Z]{2,}` can follow. */
  lemma LabelAfterDomain(s: string, k: nat, e: nat, j: nat)
    requires k + 1 < e && e + 3 <= j <= |s|
    requires AllIn(s, k + 1, e, Domain) && s[e] == '.' && AllIn(s, e + 1, j, Letter)
    ensures e < RunEnd(s, k + 1, Domain) && LabelAt(s, e) && RunEnd(s, e + 1, Letter) >= j
  {
    assert InClass(s[e], Domain);
    RunEndCovers(s, k + 1, e + 1, Domain);
    RunEndCovers(s, e + 1, j, Letter);
  }

  /** The letters after a dot at `e'` end before a later dot at `e`. */
  lemma LaterLabelIsLonger(s: string, e': nat, e: nat, j: nat)
    requires e' <= e < |s| && e' + 1 <= j <= |s| && AllIn(s, e' + 1, j, Letter)
    requires LabelAt(s, e) && (e' == e ==> RunEnd(s, e + 1, Letter) >= j)
    ensures j <= RunEnd(s, e + 1, Letter)
  {
    assert !InClass(s[e], Letter);
    assert e' < e ==> j <= e;
  }

  /** The first start at or after `i` where the engine finds a match, with
      the end it reports. */
  function MatchFrom(s: string, i: nat): Option<(nat, nat)>
    requires i <= |s|
    decreases |s| - i
  {
    match MatchEndAt(s, i)
    case Some(j) => Some((i, j))
    case None => if i == |s| then None else MatchFrom(s, i + 1)
  }

  /** `MatchFrom` reports the leftmost match at or after `i`, and the longest
      one from that start; when it reports nothing there is no match. */
  lemma {:induction false} MatchFromLeftmostLongest(s: string, i: nat)
    requires i <= |s|
    ensures MatchFrom(s, i).None? ==> forall i', j :: i <= i' ==> !MatchAt(s, i', j)
    ensures MatchFrom(s, i).Some? ==>
      var b, f := MatchFrom(s, i).value.0, MatchFrom(s, i).value.1;
      && i <= b && MatchAt(s, b, f)
      && (forall i', j :: i <= i' && MatchAt(s, i', j) ==> b <= i')
      && (forall j :: MatchAt(s, b, j) ==> j <= f)
    decreases |s| - i
  {
    forall j | MatchAt(s, i, j)
      ensures MatchEndAt(s, i).Some? && j <= MatchEndAt(s, i).value
    {
      MatchEndAtComplete(s, i, j);
    }
    match MatchEndAt(s, i)
    case Some(f) =>
      MatchEndAtSound(s, i);
    case None =>
      if i < |s| {
        MatchFromLeftmostLongest(s, i + 1);
      }
  }

  /** `re.findall(pattern, s)[0]` when the list is not empty: the start and
      end of the first match. */
  function FirstMatch(s: string): (r: Option<(nat, nat)>)
    ensures r.None? ==> forall i, j :: !MatchAt(s, i, j)
    ensures r.Some? ==>
      && r.value.0 <= r.value.1 <= |s|
      && MatchAt(s, r.value.0, r.value.1)
      && (forall i, j :: MatchAt(s, i, j) ==> r.value.0 <= i)
      && (forall j :: MatchAt(s, r.value.0, j) ==> j <= r.value.1)
  {
    MatchFromLeftmostLongest(s, 0);
    MatchFrom(s, 0)
  }

  /** Every match contains the `@`. */
  lemma MatchHasAt(s: string, i: int, j: int)
    requires MatchAt(s, i, j)
    ensures 0 <= i <= j <= |s| && '@' in s[i..j]
  {
    var k, e :| MatchSplit(s, i, k, e, j);
    assert s[i..j][k - i] == '@';
  }

  /** Every match is at least six characters long: one local character, the
      `@`, one domain character, the dot and two letters. */
  lemma MatchIsLong(s: string, i: int, j: int)
    requires MatchAt(s, i, j)
    ensures j - i >= 6
  {
  }

  /** A match contains no whitespace, so it lies inside `Strip(s)`; hence a
      text whose stripped length is below six (in particular below five)
      contains no match. */
  lemma ShortTextHasNoMatch(s: string)
    ensures |Strip(s)| < 6 ==> FirstMatch(s).None?
  {
    if FirstMatch(s).Some? {
      var (i, j) := FirstMatch(s).value;
      var k, e :| MatchSplit(s, i, k, e, j);
      assert !IsSpace(s[i]) && !IsSpace(s[j - 1]);
      StripKeepsNonSpace(s, i);
      StripKeepsNonSpace(s, j - 1);
    }
  }

  // ---------------------------------------------------------------------
  // extract_email_ai and the resolution order
  // ---------------------------------------------------------------------

  /** Returned when the description is empty or shorter than five characters
      after stripping. */
  const NoDescription: string := "설명란 없음"
  /** Returned when the model answers with something that is not a short
      string containing `@`. */
  const NeedsManualCheck: string := "직접 확인 필요"
  /** Returned when the call to the model fails. */
  const AiFailed: string := "AI 검색 실패"

  predicate IsSentinel(r: string) {
    r == NoDescription || r == NeedsManualCheck || r == AiFailed
  }

  /** None of the sentinels contains `@`, so no model answer is mistaken for one. */
  lemma SentinelsHaveNoAt()
    ensures forall r :: IsSentinel(r) ==> '@' !in r
  {
    assert '@' !in NoDescription;
    assert '@' !in NeedsManualCheck;
    assert '@' !in AiFailed;
  }

  /** The prompt sent to the model: extract the e-mail from the text, or
      answer only 'None'. */
  function Prompt(desc: string): string {
    "다음 텍스트에서 이메일을 추출해줘. 없으면 오직 'None'이라고만 답해: " + desc
  }

  /** `extract_email_ai(desc)`. `generate` stands for the model: it maps a
      prompt to the response text, or to `None` when the call raises. */
  function ExtractEmailAi(desc: string, generate: string -> Option<string>): (r: string)
    ensures r == NoDescription <==> |Strip(desc)| < 5
    ensures r == AiFailed <==> |Strip(desc)| >= 5 && generate(Prompt(desc)).None?
    ensures IsSentinel(r) || ('@' in r && |r| < 50)
    ensures !IsSentinel(r) ==>
      && |Strip(desc)| >= 5
      && generate(Prompt(desc)).Some?
      && r == Strip(generate(Prompt(desc)).value)
    ensures r == NeedsManualCheck ==>
      && generate(Prompt(desc)).Some?
      && !('@' in Strip(generate(Prompt(desc)).value) && |Strip(generate(Prompt(desc)).value)| < 50)
  {
    SentinelsHaveNoAt();
    if |desc| == 0 || |Strip(desc)| < 5 then NoDescription
    else
      match generate(Prompt(desc))
      case None => AiFailed
      case Some(text) =>
        var res := Strip(text);
        if '@' in res && |res| < 50 then res else NeedsManualCheck
  }

  /** The e-mail of a qualifying channel: the first pattern match in its
      description, verbatim; only when there is none, `extract_email_ai`. */
  function ResolveEmail(desc: string, generate: string -> Option<string>): (r: string)
    ensures r == NoDescription <==> |Strip(desc)| < 5
    ensures IsSentinel(r) || '@' in r
    ensures FirstMatch(desc).Some? ==> '@' in r && !IsSentinel(r)
    ensures FirstMatch(desc).Some? ==>
      && r == desc[FirstMatch(desc).value.0..FirstMatch(desc).value.1]
      && MatchAt(desc, FirstMatch(desc).value.0, FirstMatch(desc).value.1)
    ensures FirstMatch(desc).None? ==> r == ExtractEmailAi(desc, generate)
  {
    SentinelsHaveNoAt();
    match FirstMatch(desc)
    case Some((i, j)) =>
      ShortTextHasNoMatch(desc);
      MatchHasAt(desc, i, j);
      desc[i..j]
    case None => ExtractEmailAi(desc, generate)
  }

  /** When the description contains a match the model is never consulted:
      any two models give the same e-mail. */
  lemma MatchIgnoresModel(desc: string, g1: string -> Option<string>, g2: string -> Option<string>, i: int, j: int)
    requires MatchAt(desc, i, j)
    ensures ResolveEmail(desc, g1) == ResolveEmail(desc, g2)
    ensures '@' in ResolveEmail(desc, g1) && !IsSentinel(ResolveEmail(desc, g1))
  {
    assert FirstMatch(desc).Some?;
  }

  /** The only match start in "contact me at a@b.co" is 14: the '@' sits at
      15, and the space at 13 ends every local part that starts earlier. */
  lemma ExampleMatchStart(i: int, k: int, e: int, j: int)
    requires MatchSplit("contact me at " + "a@b.co", i, k, e, j)
    ensures i == 14 && j <= 20
  {
    var p := "contact me at ";
    var s := p + "a@b.co";
    assert '@' !in p;
    assert 14 <= k;
    assert !InClass(s[13], Local);
    assert 13 < i;
    assert s[14] == 'a' && s[14] != '@';
    assert s[14] != '.' ;
  }

  /** The worked example: "contact me at a@b.co" resolves to "a@b.co"
      whatever the model would say. */
  lemma ExampleAddress(generate: string -> Option<string>)
    ensures ResolveEmail("contact me at " + "a@b.co", generate) == "a@b.co"
  {
    var s := "contact me at " + "a@b.co";
    assert MatchSplit(s, 14, 15, 17, 20);
    assert MatchAt(s, 14, 20);
    var i, j := FirstMatch(s).value.0, FirstMatch(s).value.1;
    var k, e :| MatchSplit(s, i, k, e, j);
    ExampleMatchStart(i, k, e, j);
    assert s[14..20] == "a@b.co";
  }
}
