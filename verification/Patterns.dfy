/** What the scanners of Masking find, stated on the text alone: the words of the three patterns. */
module Patterns {
  import opened Text
  import opened Masking

  // ---------------------------------------------------------------- the words of a pattern

  /** `closing` stands at k, after at least one other character from `from` on, and not earlier. */
  predicate ClosesAt(text: string, from: nat, k: nat, closing: char) {
    from < k < |text| && text[k] == closing && forall j :: from <= j < k ==> text[j] != closing
  }

  /** A back tick at i, other characters, and the next back tick at k. */
  predicate IsCode(text: string, i: nat, k: nat) { i < |text| && text[i] == '`' && ClosesAt(text, i + 1, k, '`') }

  predicate Begins(text: string, i: nat, word: string) {
    i + |word| <= |text| && forall j :: 0 <= j < |word| ==> text[i + j] == word[j]
  }

  /** A web address in angle brackets at i and k. */
  predicate IsAngle(text: string, i: nat, k: nat) {
    || (Begins(text, i, "<http://") && ClosesAt(text, i + 8, k, '>'))
    || (Begins(text, i, "<https://") && ClosesAt(text, i + 9, k, '>'))
  }

  /** A bracket at i, the next closing bracket at a, a parenthesis behind it, and the target up to its closing one. */
  predicate IsLink(text: string, i: nat, a: nat, stop: nat) {
    && i < a && a + 1 < |text| && text[i] == '[' && text[a] == ']' && text[a + 1] == '('
    && (forall j :: i < j < a ==> text[j] != ']')
    && ClosesAt(text, a + 2, stop, ')')
  }

  /** text[i..end] is a word of the pattern, of which `span` is to be masked. */
  predicate IsWord(pattern: Pattern, text: string, i: nat, end: nat, span: Span) {
    && span.guard == i
    && match pattern
       case InlineCode => end > 0 && IsCode(text, i, end - 1) && span.start == i && span.stop == end
       case AngleLink => end > 0 && IsAngle(text, i, end - 1) && span.start == i && span.stop == end
       case LinkUrl => span.start >= 2 && IsLink(text, i, span.start - 2, span.stop) && end == span.stop + 1
  }

  // ---------------------------------------------------------------- one scan

  lemma OccursIffBegins(text: string, i: nat, word: string)
    ensures OccursAt(text, i, word) <==> Begins(text, i, word)
  {
    if Begins(text, i, word) { assert text[i..i + |word|] == word; }
    if OccursAt(text, i, word) {
      forall j | 0 <= j < |word| ensures text[i + j] == word[j] { OccursChar(text, i, word, j); }
    }
  }

  lemma OccursOne(text: string, i: nat, c: char)
    ensures OccursAt(text, i, [c]) <==> i < |text| && text[i] == c
  {
    OccursIffBegins(text, i, [c]);
  }

  lemma RunToIff(text: string, from: nat, k: nat, closing: char)
    ensures RunTo(text, from, closing) == Some(k) <==> ClosesAt(text, from, k, closing)
  {
    forall j: nat ensures OccursAt(text, j, [closing]) <==> j < |text| && text[j] == closing {
      OccursOne(text, j, closing);
    }
    if ClosesAt(text, from, k, closing) { IndexIs(text, from, [closing], k); }
  }

  lemma CodeIff(text: string, i: nat, end: nat, span: Span)
    ensures MatchAt(InlineCode, text, i) == Some(Match(span, end)) <==> IsWord(InlineCode, text, i, end, span)
  {
    OccursOne(text, i, '`');
    if end > 0 { RunToIff(text, i + 1, end - 1, '`'); }
  }

  lemma SixthCharacter(text: string, i: nat)
    ensures Begins(text, i, "<http://") ==> text[i + 5] == ':'
    ensures Begins(text, i, "<https://") ==> text[i + 5] == 's'
  {
    assert "<http://"[5] == ':' && "<https://"[5] == 's';
  }

  lemma AngleIff(text: string, i: nat, end: nat, span: Span)
    ensures MatchAt(AngleLink, text, i) == Some(Match(span, end)) <==> IsWord(AngleLink, text, i, end, span)
  {
    OccursIffBegins(text, i, "<http://");
    OccursIffBegins(text, i, "<https://");
    SixthCharacter(text, i);
    if end > 0 {
      RunToIff(text, i + 8, end - 1, '>');
      RunToIff(text, i + 9, end - 1, '>');
    }
  }

  lemma BracketIff(text: string, i: nat, a: nat)
    requires i < a
    ensures IndexFrom(text, i + 1, "]") == Some(a)
       <==> a < |text| && text[a] == ']' && forall j :: i < j < a ==> text[j] != ']'
  {
    forall j: nat ensures OccursAt(text, j, "]") <==> j < |text| && text[j] == ']' { OccursOne(text, j, ']'); }
    if a < |text| && text[a] == ']' && forall j :: i < j < a ==> text[j] != ']' { IndexIs(text, i + 1, "]", a); }
  }

  lemma LinkIff(text: string, i: nat, end: nat, span: Span)
    ensures MatchAt(LinkUrl, text, i) == Some(Match(span, end)) <==> IsWord(LinkUrl, text, i, end, span)
  {
    OccursOne(text, i, '[');
    var bracket := IndexFrom(text, i + 1, "]");
    if bracket.Some? && OccursAt(text, i, "[") { BracketAt(text, i, bracket.value, end, span); }
    if IsWord(LinkUrl, text, i, end, span) { BracketIff(text, i, span.start - 2); }
  }

  lemma SameBracket(text: string, i: nat, a: nat, b: nat, stop: nat)
    requires IndexFrom(text, i + 1, "]") == Some(a) && i < a && IsLink(text, i, b, stop)
    ensures a == b
  {
    BracketIff(text, i, a);
    assert !(i < a < b) && !(i < b < a);
  }

  /** What the scanner for links makes of the bracket at a. */
  lemma BracketMatch(text: string, i: nat, a: nat, end: nat, span: Span)
    requires IndexFrom(text, i + 1, "]") == Some(a) && i < a && OccursAt(text, i, "[")
    ensures MatchAt(LinkUrl, text, i) == Some(Match(span, end))
       <==> && OccursAt(text, a, "](") && RunTo(text, a + 2, ')') == Some(span.stop)
            && span == Span(i, a + 2, span.stop) && end == span.stop + 1
  {}

  lemma BracketAt(text: string, i: nat, a: nat, end: nat, span: Span)
    requires IndexFrom(text, i + 1, "]") == Some(a) && i < a && OccursAt(text, i, "[")
    ensures MatchAt(LinkUrl, text, i) == Some(Match(span, end)) <==> IsWord(LinkUrl, text, i, end, span)
  {
    OccursOne(text, i, '[');
    BracketIff(text, i, a);
    BracketMatch(text, i, a, end, span);
    OccursIffBegins(text, a, "](");
    RunToIff(text, a + 2, span.stop, ')');
    if IsWord(LinkUrl, text, i, end, span) { SameBracket(text, i, a, span.start - 2, span.stop); }
  }

  /** The scanner at i finds exactly the word of the pattern that begins there, if any. */
  lemma MatchIff(pattern: Pattern, text: string, i: nat, end: nat, span: Span)
    ensures MatchAt(pattern, text, i) == Some(Match(span, end)) <==> IsWord(pattern, text, i, end, span)
  {
    match pattern
    case InlineCode => CodeIff(text, i, end, span);
    case AngleLink => AngleIff(text, i, end, span);
    case LinkUrl => LinkIff(text, i, end, span);
  }

  // ---------------------------------------------------------------- all words

  /** Position j lies in the word whose masked part is `span`. */
  ghost predicate Holds(pattern: Pattern, text: string, span: Span, j: nat) {
    exists end :: IsWord(pattern, text, span.guard, end, span) && span.guard <= j < end
  }

  /** Some span found from position i on belongs to a word that position j lies in. */
  ghost predicate Found(pattern: Pattern, text: string, i: nat, j: nat)
    requires i <= |text|
  {
    exists s :: s in FindAll(pattern, text, i) && Holds(pattern, text, s, j)
  }

  lemma FoundHere(pattern: Pattern, text: string, i: nat, j: nat, m: Match)
    requires i <= j < m.end && i < |text| && MatchAt(pattern, text, i) == Some(m)
    ensures Found(pattern, text, i, j)
  {
    MatchIff(pattern, text, i, m.end, m.span);
    assert m.span in FindAll(pattern, text, i) && Holds(pattern, text, m.span, j);
  }

  lemma FoundLater(pattern: Pattern, text: string, i: nat, k: nat, j: nat)
    requires i < k <= |text| && Found(pattern, text, k, j)
    requires k == if MatchAt(pattern, text, i).Some? then MatchAt(pattern, text, i).value.end else i + 1
    ensures Found(pattern, text, i, j)
  {
    var s :| s in FindAll(pattern, text, k) && Holds(pattern, text, s, j);
    assert s in FindAll(pattern, text, i);
  }

  /** No word is missed: where one begins, there is a word that was found. */
  lemma {:induction false} NoWordMissed(pattern: Pattern, text: string, i: nat, j: nat, end: nat, span: Span)
    requires i <= j && i <= |text| && IsWord(pattern, text, j, end, span)
    ensures Found(pattern, text, i, j)
    decreases |text| - i
  {
    MatchIff(pattern, text, j, end, span);
    assert j < |text|;
    var m := MatchAt(pattern, text, i);
    if m.Some? && j < m.value.end {
      FoundHere(pattern, text, i, j, m.value);
    } else {
      var k := if m.Some? then m.value.end else i + 1;
      NoWordMissed(pattern, text, k, j, end, span);
      FoundLater(pattern, text, i, k, j);
    }
  }

  /** And all that is found are words. */
  lemma {:induction false} OnlyWordsFound(pattern: Pattern, text: string, i: nat, s: Span)
    requires i <= |text| && s in FindAll(pattern, text, i)
    ensures exists end :: IsWord(pattern, text, s.guard, end, s)
    decreases |text| - i
  {
    match MatchAt(pattern, text, i)
    case Some(m) =>
      MatchIff(pattern, text, i, m.end, m.span);
      if s != m.span { OnlyWordsFound(pattern, text, m.end, s); }
    case None =>
      OnlyWordsFound(pattern, text, i + 1, s);
  }

  // ---------------------------------------------------------------- the passes

  /** Span s of the text is masked by placeholder p. */
  ghost predicate MaskedBy(text: string, s: Span, p: string, w: Work) {
    s.start <= s.stop <= |text| && p in w.used && p in w.mapping && w.mapping[p] == text[s.start..s.stop]
  }

  /** What was masked stays masked. */
  ghost predicate Keeps(w: Work, w': Work) {
    && w.used <= w'.used && w.placeholders <= w'.placeholders
    && forall p :: p in w.used && p in w.mapping ==> p in w'.mapping && w'.mapping[p] == w.mapping[p]
  }

  /** One new placeholder for each span, in order. */
  ghost predicate MasksAll(text: string, spans: seq<Span>, w: Work, w': Work) {
    && Keeps(w, w') && |w'.placeholders| == |w.placeholders| + |spans|
    && forall k :: 0 <= k < |spans| ==> MaskedBy(text, spans[k], w'.placeholders[|w.placeholders| + k], w')
  }

  lemma MasksFirst(text: string, spans: seq<Span>, w: Work, w': Work)
    requires spans != [] && spans[0].start <= spans[0].stop <= |text|
    requires MasksAll(text, spans[1..], Recorded(w, text[spans[0].start..spans[0].stop]), w')
    ensures MasksAll(text, spans, w, w')
  {
    var s, p := spans[0], Placeholder(FreshFrom(w.used, w.counter));
    assert w'.placeholders[|w.placeholders|] == p && MaskedBy(text, s, p, w');
    forall k | 0 <= k < |spans| ensures MaskedBy(text, spans[k], w'.placeholders[|w.placeholders| + k], w') {
      if k > 0 { assert spans[k] == spans[1..][k - 1]; }
    }
  }

  /** A pass skips no span that it is given. */
  lemma {:induction false} NoneSkipped(text: string, pos: nat, spans: seq<Span>, w: Work)
    requires InRange(text, spans) && pos <= |text| && (spans != [] ==> pos <= spans[0].guard)
    requires forall j, k :: 0 <= j < k < |spans| ==> spans[j].stop <= spans[k].guard
    ensures MasksAll(text, spans, w, MaskFrom(text, pos, spans, w).1)
    decreases |spans|
  {
    if spans != [] {
      var s := spans[0];
      NoneSkipped(text, s.stop, spans[1..], Recorded(w, text[s.start..s.stop]));
      MasksFirst(text, spans, w, MaskFrom(text, pos, spans, w).1);
    }
  }

  lemma PassMasksAll(pattern: Pattern, text: string, w: Work)
    ensures MasksAll(text, FindAll(pattern, text, 0), w, MaskPass(pattern, text, w).1)
  {
    var spans := FindAll(pattern, text, 0);
    assert forall k :: 0 <= k < |spans| ==> WellPlaced(text, spans[k]);
    NoneSkipped(text, 0, spans, w);
  }

  ghost predicate NoWord(pattern: Pattern, text: string) {
    forall j, end, span :: !IsWord(pattern, text, j, end, span)
  }

  lemma PassWithoutWords(pattern: Pattern, text: string, w: Work)
    requires NoWord(pattern, text)
    ensures MaskPass(pattern, text, w) == (text, w)
  {
    var spans := FindAll(pattern, text, 0);
    if spans != [] { OnlyWordsFound(pattern, text, 0, spans[0]); }
    assert spans == [] && text[0..] == text;
  }

  /** In the end some placeholder stands for a masked part whose word position j of the source lies in. */
  ghost predicate IsMasked(pattern: Pattern, source: string, j: nat) {
    exists s, p :: Holds(pattern, source, s, j) && MaskedBy(source, s, p, MaskText(source, InitialWork(source)).1)
  }

  lemma MaskedInPass(pattern: Pattern, text: string, w: Work, j: nat, end: nat, span: Span)
    returns (s: Span, p: string)
    requires IsWord(pattern, text, j, end, span)
    ensures Holds(pattern, text, s, j) && MaskedBy(text, s, p, MaskPass(pattern, text, w).1)
  {
    NoWordMissed(pattern, text, 0, j, end, span);
    s :| s in FindAll(pattern, text, 0) && Holds(pattern, text, s, j);
    PassMasksAll(pattern, text, w);
    var k :| 0 <= k < |FindAll(pattern, text, 0)| && FindAll(pattern, text, 0)[k] == s;
    p := MaskPass(pattern, text, w).1.placeholders[|w.placeholders| + k];
  }

  lemma StaysMasked(pattern: Pattern, text: string, w: Work, source: string, s: Span, p: string)
    requires MaskedBy(source, s, p, w)
    ensures MaskedBy(source, s, p, MaskPass(pattern, text, w).1)
  {
    PassMasksAll(pattern, text, w);
  }

  /** The pass of the pattern gets the source as it is. */
  ghost predicate Untouched(pattern: Pattern, source: string) {
    (!pattern.InlineCode? ==> NoWord(InlineCode, source)) && (pattern.LinkUrl? ==> NoWord(AngleLink, source))
  }

  lemma MaskedInItsPass(pattern: Pattern, source: string, j: nat, end: nat, span: Span,
                        coded: (string, Work), angled: (string, Work)) returns (s: Span, p: string)
    requires IsWord(pattern, source, j, end, span) && Untouched(pattern, source)
    requires coded == MaskPass(InlineCode, source, InitialWork(source))
    requires angled == MaskPass(AngleLink, coded.0, coded.1)
    ensures Holds(pattern, source, s, j) && MaskedBy(source, s, p, MaskPass(LinkUrl, angled.0, angled.1).1)
  {
    var w := InitialWork(source);
    match pattern
    case InlineCode =>
      s, p := MaskedInPass(InlineCode, source, w, j, end, span);
      StaysMasked(AngleLink, coded.0, coded.1, source, s, p);
      StaysMasked(LinkUrl, angled.0, angled.1, source, s, p);
    case AngleLink =>
      PassWithoutWords(InlineCode, source, w);
      s, p := MaskedInPass(AngleLink, source, w, j, end, span);
      StaysMasked(LinkUrl, angled.0, angled.1, source, s, p);
    case LinkUrl =>
      PassWithoutWords(InlineCode, source, w);
      PassWithoutWords(AngleLink, source, w);
      s, p := MaskedInPass(LinkUrl, source, w, j, end, span);
  }

  /**
   Masking leaves no word of the source open: code spans always, web addresses in angle brackets where there is
   no code span, link targets where there is neither.
   */
  lemma EveryWordIsMasked(pattern: Pattern, source: string, j: nat, end: nat, span: Span)
    requires IsWord(pattern, source, j, end, span) && Untouched(pattern, source)
    ensures IsMasked(pattern, source, j)
  {
    var coded := MaskPass(InlineCode, source, InitialWork(source));
    var angled := MaskPass(AngleLink, coded.0, coded.1);
    var s, p := MaskedInItsPass(pattern, source, j, end, span, coded, angled);
    assert MaskText(source, InitialWork(source)) == MaskPass(LinkUrl, angled.0, angled.1);
  }

  // ---------------------------------------------------------------- placeholders of the source

  /** The stem, one or more digits, and two underscores. */
  predicate IsPlaceholderWord(text: string, i: nat, end: nat) {
    && i + 12 < end <= |text| && Begins(text, i, "__OC_I18N_") && Begins(text, end - 2, "__")
    && forall j :: i + 10 <= j < end - 2 ==> '0' <= text[j] <= '9'
  }

  lemma DigitsEnd(text: string, i: nat, k: nat)
    requires i <= k <= |text| && (k < |text| ==> !IsDigit(text[k])) && forall j :: i <= j < k ==> IsDigit(text[j])
    ensures DigitRun(text, i) == k
    decreases k - i
  {
    if i < k { DigitsEnd(text, i + 1, k); }
  }

  lemma StemBegins(text: string, i: nat)
    ensures OccursAt(text, i, PREFIX) <==> Begins(text, i, "__OC_I18N_")
  {
    OccursIffBegins(text, i, PREFIX);
    assert PREFIX == "__OC_I18N_";
  }

  /** The scanner finds exactly such words. */
  lemma PlaceholderIff(text: string, i: nat, end: nat)
    ensures PlaceholderMatch(text, i) == Some(end) <==> IsPlaceholderWord(text, i, end)
  {
    StemBegins(text, i);
    if i + 10 <= |text| { OccursIffBegins(text, DigitRun(text, i + 10), "__"); }
    if IsPlaceholderWord(text, i, end) {
      assert text[end - 2 + 0] == "__"[0];
      DigitsEnd(text, i + 10, end - 2);
    }
  }

  /** A word that is in the set of recognised placeholders holds position j. */
  ghost predicate IsRecorded(text: string, i: nat, j: nat)
    requires i <= |text|
  {
    exists a: nat, b: nat :: i <= a <= j < b && IsPlaceholderWord(text, a, b) && text[a..b] in PlaceholderHits(text, i)
  }

  /** No placeholder of the text is overlooked: where one begins, there is one that is recorded. */
  lemma {:induction false} NoPlaceholderMissed(text: string, i: nat, j: nat, end: nat)
    requires i <= j && i <= |text| && IsPlaceholderWord(text, j, end)
    ensures IsRecorded(text, i, j)
    decreases |text| - i
  {
    PlaceholderIff(text, j, end);
    var m := PlaceholderMatch(text, i);
    if m.Some? && j < m.value {
      PlaceholderIff(text, i, m.value);
      assert text[i..m.value] in PlaceholderHits(text, i);
    } else {
      var k := if m.Some? then m.value else i + 1;
      NoPlaceholderMissed(text, k, j, end);
      var a: nat, b: nat :| k <= a <= j < b && IsPlaceholderWord(text, a, b) && text[a..b] in PlaceholderHits(text, k);
      assert text[a..b] in PlaceholderHits(text, i);
    }
  }

  /** And only placeholders of the text are recorded. */
  lemma {:induction false} OnlyPlaceholdersRecorded(text: string, i: nat, p: string)
    requires i <= |text| && p in PlaceholderHits(text, i)
    ensures exists a: nat, b: nat :: IsPlaceholderWord(text, a, b) && text[a..b] == p
    decreases |text| - i
  {
    match PlaceholderMatch(text, i)
    case Some(end) =>
      PlaceholderIff(text, i, end);
      if p != text[i..end] { OnlyPlaceholdersRecorded(text, end, p); }
    case None =>
      OnlyPlaceholdersRecorded(text, i + 1, p);
  }
}
