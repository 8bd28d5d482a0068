/** A source text outside the condition under which masking is fail-safe, worked through. */
module SpoiltSource {
  import opened Text
  import opened Masking
  import opened MaskLayout
  import opened Unmasking
  import opened Translator

  /** The character every match of the pattern starts with. */
  function Opening(pattern: Pattern): char {
    match pattern case InlineCode => '`' case AngleLink => '<' case LinkUrl => '['
  }

  lemma {:induction false} FindNothing(pattern: Pattern, text: string, i: nat, k: nat)
    requires i <= k <= |text| && forall j :: i <= j < k ==> text[j] != Opening(pattern)
    ensures FindAll(pattern, text, i) == FindAll(pattern, text, k)
    decreases k - i
  {
    if i < k {
      assert MatchAt(pattern, text, i).None? by { NoOpening(pattern, text, i); }
      FindNothing(pattern, text, i + 1, k);
    }
  }

  lemma NoOpening(pattern: Pattern, text: string, i: nat)
    requires i < |text| && text[i] != Opening(pattern)
    ensures MatchAt(pattern, text, i).None?
  {
    OccursChar(text, i, "`", 0);
    OccursChar(text, i, "[", 0);
    OccursChar(text, i, "<https://", 0);
    OccursChar(text, i, "<http://", 0);
  }

  lemma {:induction false} NoHits(text: string, i: nat)
    requires i <= |text| && forall j :: i <= j < |text| - 1 ==> !(text[j] == '_' && text[j + 1] == '_')
    ensures PlaceholderHits(text, i) == {}
    decreases |text| - i
  {
    if i < |text| {
      OccursChar(text, i, PREFIX, 0);
      OccursChar(text, i, PREFIX, 1);
      NoHits(text, i + 1);
    }
  }

  /** A source that ends a placeholder's core right before a code span. */
  const SPOILT := "__OC_I18N_900000`a`"

  lemma SpoiltHits()
    ensures PlaceholderHits(SPOILT, 0) == {}
  {
    assert SPOILT[10..16] == "900000" && SPOILT[16] == '`';
    assert DigitRun(SPOILT, 16) == 16;
    assert DigitRun(SPOILT, 10) == 16;
    OccursChar(SPOILT, 16, "__", 0);
    NoHits(SPOILT, 1);
  }

  /** A code span of one letter at the end of a text without any other opening. */
  lemma CodeAtEnd(text: string, n: nat)
    requires |text| == n + 3 && text[n] == '`' && text[n + 1] != '`' && text[n + 2] == '`'
    requires forall j :: 0 <= j < n ==> text[j] != '`'
    ensures FindAll(InlineCode, text, 0) == [Span(n, n, n + 3)]
  {
    CodeThere(text, n);
    FindNothing(InlineCode, text, 0, n);
    assert FindAll(InlineCode, text, n + 3) == [];
  }

  lemma CodeThere(text: string, n: nat)
    requires |text| == n + 3 && text[n] == '`' && text[n + 1] != '`' && text[n + 2] == '`'
    ensures MatchAt(InlineCode, text, n) == Some(Match(Span(n, n, n + 3), n + 3))
  {
    IndexIs(text, n + 1, ['`'], n + 2);
    assert RunTo(text, n + 1, '`') == Some(n + 2);
  }

  lemma SpoiltSpans()
    ensures FindAll(InlineCode, SPOILT, 0) == [Span(16, 16, 19)]
  {
    CodeAtEnd(SPOILT, 16);
  }

  const DOUBLED := "__OC_I18N_900000__OC_I18N_900000__"

  lemma NothingFound(text: string)
    requires '<' !in text && '[' !in text
    ensures FindAll(AngleLink, text, 0) == FindAll(LinkUrl, text, 0) == []
  {
    FindNothing(AngleLink, text, 0, |text|);
    FindNothing(LinkUrl, text, 0, |text|);
  }

  lemma LaterPasses()
    ensures FindAll(AngleLink, DOUBLED, 0) == FindAll(LinkUrl, DOUBLED, 0) == []
  {
    NothingFound(DOUBLED);
  }

  lemma FirstNumber()
    ensures Placeholder(900000) == "__OC_I18N_900000__"
    ensures forall used: set<string> :: "__OC_I18N_900000__" !in used ==> FreshFrom(used, 900000) == 900000
  {
    assert Decimal(900000) == "900000";
  }

  lemma OneMasked(text: string, span: Span, w: Work)
    requires span.guard <= span.start <= span.stop <= |text|
    ensures var p := Placeholder(FreshFrom(w.used, w.counter));
            MaskFrom(text, 0, [span], w)
            == (text[..span.start] + p + text[span.stop..], Recorded(w, text[span.start..span.stop]))
  {
    var w' := Recorded(w, text[span.start..span.stop]);
    assert [span][1..] == [];
    assert MaskFrom(text, span.stop, [], w') == (text[span.stop..], w');
    assert text[0..span.start] == text[..span.start];
  }

  lemma SpoiltFirstPass(source: string, front: string, p: string)
    requires source == front + "`a`" && p == Placeholder(900000)
    requires PlaceholderHits(source, 0) == {}
    requires FindAll(InlineCode, source, 0) == [Span(|front|, |front|, |front| + 3)]
    ensures MaskPass(InlineCode, source, InitialWork(source))
         == (front + p, Work(900001, {p}, [p], map[p := "`a`"]))
  {
    var w := InitialWork(source);
    assert FreshFrom(w.used, 900000) == 900000;
    OneMasked(source, Span(|front|, |front|, |front| + 3), w);
    assert source[|front|..|front| + 3] == "`a`" && source[|front| + 3..] == "" && source[..|front|] == front;
    assert Recorded(w, "`a`") == Work(900001, {p}, [p], map[p := "`a`"]);
    assert front + p + "" == front + p;
  }

  lemma SpoiltMasks(source: string, front: string, p: string)
    requires source == front + "`a`" && p == Placeholder(900000)
    requires PlaceholderHits(source, 0) == {}
    requires FindAll(InlineCode, source, 0) == [Span(|front|, |front|, |front| + 3)]
    requires FindAll(AngleLink, front + p, 0) == FindAll(LinkUrl, front + p, 0) == []
    ensures MaskedText(source) == front + p
    ensures FinalWork(source).placeholders == [p] && FinalWork(source).mapping == map[p := "`a`"]
  {
    SpoiltFirstPass(source, front, p);
    var w := MaskPass(InlineCode, source, InitialWork(source)).1;
  }

  lemma ReplaceOnce(p: string, tail: string, original: string)
    requires p != "" && |tail| < |p|
    ensures ReplaceAll(p + tail, p, original) == original + tail && Contains(p + tail, p)
  {
    ReplaceFirst(p, tail, original);
    ReplaceAbsent(tail, p, original);
    assert (p + tail)[0..|p|] == p;
    assert OccursAt(p + tail, 0, p);
  }

  lemma SpoiltComesBack(text: string, p: string, tail: string)
    requires text == p + tail && |tail| < |p|
    ensures Contains(text, p)
    ensures Unmask(text, [p], map[p := "`a`"]) == "`a`" + tail
  {
    ReplaceOnce(p, tail, "`a`");
  }

  lemma SpoiltStrings() returns (source: string, front: string, p: string, tail: string)
    ensures source == SPOILT && source == front + "`a`" && |front| == 16
    ensures p == "__OC_I18N_900000__" && front + p == DOUBLED && p + tail == DOUBLED
    ensures |tail| < |p| && source[0] == '_'
  {
    source, front, p, tail := SPOILT, "__OC_I18N_900000", "__OC_I18N_900000__", "OC_I18N_900000__";
  }

  lemma SpoiltParts() returns (source: string, front: string, p: string, tail: string)
    ensures source == SPOILT && source == front + "`a`" && p == Placeholder(900000)
    ensures front + p == p + tail && |tail| < |p| && source[0] == '_'
    ensures PlaceholderHits(source, 0) == {}
    ensures FindAll(InlineCode, source, 0) == [Span(|front|, |front|, |front| + 3)]
    ensures FindAll(AngleLink, front + p, 0) == FindAll(LinkUrl, front + p, 0) == []
  {
    source, front, p, tail := SpoiltStrings();
    FirstNumber();
    SpoiltHits();
    SpoiltSpans();
    LaterPasses();
  }

  lemma EchoSpoils(source: string, m: string, ps: seq<string>, mapping: map<string, string>, p: string, tail: string)
    requires ps == [p] && mapping == map[p := "`a`"] && m == p + tail && |tail| < |p| && source != ""
           && source[0] == '_'
    ensures "" !in ps && AllPresent(m, ps) && Unmask(m, ps, mapping) != source
  {
    SpoiltComesBack(p + tail, p, tail);
  }

  lemma SpoiltOutcome(source: string, front: string, p: string, tail: string)
    requires source == front + "`a`" && p == Placeholder(900000)
    requires front + p == p + tail && |tail| < |p| && source[0] == '_'
    requires PlaceholderHits(source, 0) == {}
    requires FindAll(InlineCode, source, 0) == [Span(|front|, |front|, |front| + 3)]
    requires FindAll(AngleLink, front + p, 0) == FindAll(LinkUrl, front + p, 0) == []
    ensures Accepted(source)
           && Unmask(MaskedText(source), FinalWork(source).placeholders, FinalWork(source).mapping) != source
  {
    SpoiltMasks(source, front, p);
    EchoSpoils(source, MaskedText(source), FinalWork(source).placeholders, FinalWork(source).mapping, p, tail);
  }

  /** The condition cannot be dropped: echoed unchanged, this source is accepted and comes back different. */
  lemma CoresMatter() returns (source: string)
    ensures source == SPOILT && Accepted(source)
    ensures Unmask(MaskedText(source), FinalWork(source).placeholders, FinalWork(source).mapping) != source
  {
    var front, p, tail;
    source, front, p, tail := SpoiltParts();
    SpoiltOutcome(source, front, p, tail);
  }
}
