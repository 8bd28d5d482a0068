/**
 A source outside the condition under which being restored means being well masked: it spells the cores of
 two masked link targets, and the two stray replacements of unmasking cancel each other out.
 */
module CancellingSource {
  import opened Text
  import opened Masking
  import opened MaskLayout
  import opened Unmasking
  import opened Translator
  import opened SpoiltSource

  // ---------------------------------------------------------------- two links

  ghost predicate IsTarget(u: string) { u != "" && ')' !in u && '[' !in u }

  ghost predicate Plain(text: string) { forall c :: c in text ==> c !in "`<[)" }

  ghost function TwoLinks(front: string, u: string, v: string): string { front + "[](" + u + ")[](" + v + ")" }

  lemma LinkPieces(u: string)
    ensures var link := "[](" + u + ")";
            && OccursAt(link, 0, "[") && OccursAt(link, 1, "]") && OccursAt(link, 1, "](")
            && OccursAt(link, 3, u) && OccursAt(link, 3 + |u|, [')'])
  {}

  lemma LinkAt(text: string, i: nat, u: string)
    requires OccursAt(text, i, "[](" + u + ")") && IsTarget(u)
    ensures MatchAt(LinkUrl, text, i) == Some(Match(Span(i, i + 3, i + 3 + |u|), i + 4 + |u|))
  {
    var link, k := "[](" + u + ")", i + 3 + |u|;
    LinkPieces(u);
    OccursTrans(text, i, link, 0, "[");
    OccursTrans(text, i, link, 1, "]");
    OccursTrans(text, i, link, 1, "](");
    OccursTrans(text, i, link, 3, u);
    OccursTrans(text, i, link, 3 + |u|, [')']);
    TargetEnds(text, i + 3, u);
    assert IndexFrom(text, i + 1, "]") == Some(i + 1);
  }

  lemma TargetEnds(text: string, i: nat, u: string)
    requires OccursAt(text, i, u) && OccursAt(text, i + |u|, [')']) && IsTarget(u)
    ensures RunTo(text, i, ')') == Some(i + |u|)
  {
    forall j | i <= j < i + |u| ensures !OccursAt(text, j, [')']) {
      OccursChar(text, i, u, j - i);
      OccursChar(text, j, [')'], 0);
    }
    IndexIs(text, i, [')'], i + |u|);
  }

  lemma LinkPlaces(front: string, u: string, v: string)
    ensures var text := TwoLinks(front, u, v);
            && |text| == |front| + 8 + |u| + |v| && HasPrefix(text, front)
            && OccursAt(text, |front|, "[](" + u + ")")
  {}

  lemma SecondPlace(front: string, u: string, v: string, text: string, i: nat)
    requires text == TwoLinks(front, u, v) && i == |front| + 4 + |u|
    ensures OccursAt(text, i, "[](" + v + ")") && |text| == i + 4 + |v|
  {}

  lemma LinkParts(front: string, u: string, v: string)
    ensures var text, i := TwoLinks(front, u, v), |front| + 4 + |u|;
            && |text| == i + 4 + |v| && text[..|front|] == front && text[|front| + 3..|front| + 3 + |u|] == u
            && text[i + 3..i + 3 + |v|] == v && text[i + 3 + |v|..] == ")"
            && text[..|front| + 3] == front + "[](" && text[|front| + 3 + |u|..i + 3] == ")[]("
  {}

  lemma NoLinkIn(text: string, front: string)
    requires HasPrefix(text, front) && '[' !in front
    ensures FindAll(LinkUrl, text, 0) == FindAll(LinkUrl, text, |front|)
  {
    assert forall j :: 0 <= j < |front| ==> text[j] == text[..|front|][j] == front[j];
    FindNothing(LinkUrl, text, 0, |front|);
  }

  ghost function FirstSpan(front: string, u: string): Span { Span(|front|, |front| + 3, |front| + 3 + |u|) }

  ghost function SecondSpan(front: string, u: string, v: string): Span {
    Span(|front| + 4 + |u|, |front| + 7 + |u|, |front| + 7 + |u| + |v|)
  }

  lemma TwoFound(text: string, i: nat, a: Span, k: nat, b: Span)
    requires MatchAt(LinkUrl, text, i) == Some(Match(a, k)) && i < |text|
    requires MatchAt(LinkUrl, text, k) == Some(Match(b, |text|)) && k < |text|
    ensures FindAll(LinkUrl, text, i) == [a, b]
  {
    assert FindAll(LinkUrl, text, |text|) == [];
    assert FindAll(LinkUrl, text, k) == [b];
  }

  lemma FirstLink(front: string, u: string, v: string)
    requires IsTarget(u)
    ensures MatchAt(LinkUrl, TwoLinks(front, u, v), |front|) == Some(Match(FirstSpan(front, u), |front| + 4 + |u|))
  {
    LinkPlaces(front, u, v);
    LinkAt(TwoLinks(front, u, v), |front|, u);
  }

  lemma LastLink(text: string, i: nat, v: string)
    requires OccursAt(text, i, "[](" + v + ")") && IsTarget(v) && |text| == i + 4 + |v|
    ensures MatchAt(LinkUrl, text, i) == Some(Match(Span(i, i + 3, i + 3 + |v|), |text|))
  {
    LinkAt(text, i, v);
  }

  lemma SecondLink(front: string, u: string, v: string, text: string, i: nat)
    requires IsTarget(v) && text == TwoLinks(front, u, v) && i == |front| + 4 + |u|
    ensures MatchAt(LinkUrl, text, i) == Some(Match(SecondSpan(front, u, v), |text|))
  {
    SecondPlace(front, u, v, text, i);
    LastLink(text, i, v);
  }

  lemma LinksFound(text: string, front: string, a: Span, k: nat, b: Span)
    requires HasPrefix(text, front) && '[' !in front && |front| < |text| && k < |text|
    requires MatchAt(LinkUrl, text, |front|) == Some(Match(a, k))
    requires MatchAt(LinkUrl, text, k) == Some(Match(b, |text|))
    ensures FindAll(LinkUrl, text, 0) == [a, b]
  {
    NoLinkIn(text, front);
    TwoFound(text, |front|, a, k, b);
  }

  lemma LinkSpans(front: string, u: string, v: string)
    requires '[' !in front && IsTarget(u) && IsTarget(v)
    ensures FindAll(LinkUrl, TwoLinks(front, u, v), 0) == [FirstSpan(front, u), SecondSpan(front, u, v)]
  {
    FirstLink(front, u, v);
    SecondLink(front, u, v, TwoLinks(front, u, v), |front| + 4 + |u|);
    LinkPlaces(front, u, v);
    LinksFound(TwoLinks(front, u, v), front, FirstSpan(front, u), |front| + 4 + |u|, SecondSpan(front, u, v));
  }

  lemma OnlyLinks(front: string, u: string, v: string)
    requires Plain(front) && Plain(u) && Plain(v)
    ensures FindAll(InlineCode, TwoLinks(front, u, v), 0) == FindAll(AngleLink, TwoLinks(front, u, v), 0) == []
  {
    var text := TwoLinks(front, u, v);
    forall j | 0 <= j < |text| ensures text[j] != '`' && text[j] != '<' {
      assert text[j] in front || text[j] in u || text[j] in v || text[j] in "[])(";
    }
    FindNothing(InlineCode, text, 0, |text|);
    FindNothing(AngleLink, text, 0, |text|);
  }

  lemma TwoMasked(text: string, a: Span, b: Span, w: Work, w1: Work, p: string, q: string)
    requires a.guard <= a.start <= a.stop <= b.guard <= b.start <= b.stop <= |text|
    requires p == Placeholder(FreshFrom(w.used, w.counter)) && w1 == Recorded(w, text[a.start..a.stop])
    requires q == Placeholder(FreshFrom(w1.used, w1.counter))
    ensures MaskFrom(text, 0, [a, b], w)
         == (text[..a.start] + p + (text[a.stop..b.start] + q + text[b.stop..]), Recorded(w1, text[b.start..b.stop]))
  {
    var w2 := Recorded(w1, text[b.start..b.stop]);
    assert [a, b][1..] == [b] && [b][1..] == [];
    assert MaskFrom(text, a.stop, [b], w1) == (text[a.stop..b.start] + q + text[b.stop..], w2);
    assert text[0..a.start] == text[..a.start];
  }

  lemma SpansMasked(text: string, a: Span, b: Span, used: set<string>, u: string, v: string, p: string, q: string,
                    masked: string)
    requires a.guard <= a.start <= a.stop <= b.guard <= b.start <= b.stop <= |text|
    requires text[a.start..a.stop] == u && text[b.start..b.stop] == v
    requires text[..a.start] + p + (text[a.stop..b.start] + q + text[b.stop..]) == masked
    requires p == Placeholder(900000) && q == Placeholder(900001) && p !in used && q !in used
    ensures MaskFrom(text, 0, [a, b], Work(900000, used, [], map[]))
         == (masked, Work(900002, used + {p, q}, [p, q], map[p := u, q := v]))
  {
    var w := Work(900000, used, [], map[]);
    FirstTwo(used, u, v, p, q);
    TwoMasked(text, a, b, w, Recorded(w, u), p, q);
  }

  lemma FirstTwo(used: set<string>, u: string, v: string, p: string, q: string)
    requires p == Placeholder(900000) && q == Placeholder(900001) && p !in used && q !in used
    ensures var w := Work(900000, used, [], map[]);
            var w1 := Recorded(w, u);
            && FreshFrom(w.used, w.counter) == 900000 && FreshFrom(w1.used, w1.counter) == 900001
            && Recorded(w1, v) == Work(900002, used + {p, q}, [p, q], map[p := u, q := v])
  {
    var w := Work(900000, used, [], map[]);
    var w1 := Recorded(w, u);
    if p == q { PlaceholderInjective(900000, 900001); }
    assert w1 == Work(900001, used + {p}, [p], map[p := u]);
    assert used + {p} + {q} == used + {p, q} && [p] + [q] == [p, q];
  }

  lemma SpansParted(front: string, u: string, v: string, p: string, q: string)
    ensures var text, a, b := TwoLinks(front, u, v), FirstSpan(front, u), SecondSpan(front, u, v);
            && b.stop <= |text| && text[a.start..a.stop] == u && text[b.start..b.stop] == v
            && text[..a.start] + p + (text[a.stop..b.start] + q + text[b.stop..]) == TwoLinks(front, p, q)
  {
    LinkParts(front, u, v);
    Joined(front, p, q);
  }

  lemma LinkPass(front: string, u: string, v: string, p: string, q: string, used: set<string>)
    requires '[' !in front && IsTarget(u) && IsTarget(v)
    requires p == Placeholder(900000) && q == Placeholder(900001) && p !in used && q !in used
    ensures MaskPass(LinkUrl, TwoLinks(front, u, v), Work(900000, used, [], map[]))
         == (TwoLinks(front, p, q), Work(900002, used + {p, q}, [p, q], map[p := u, q := v]))
  {
    LinkSpans(front, u, v);
    SpansParted(front, u, v, p, q);
    SpansMasked(TwoLinks(front, u, v), FirstSpan(front, u), SecondSpan(front, u, v), used, u, v, p, q,
        TwoLinks(front, p, q));
  }

  lemma Joined(front: string, p: string, q: string)
    ensures front + "[](" + p + (")[](" + q + ")") == TwoLinks(front, p, q)
  {}

  /** Both link targets are masked, and nothing else is. */
  lemma LinksMasked(source: string, front: string, u: string, v: string, p: string, q: string)
    requires source == TwoLinks(front, u, v) && '[' !in front && IsTarget(u) && IsTarget(v)
    requires Plain(front) && Plain(u) && Plain(v)
    requires p == Placeholder(900000) && q == Placeholder(900001)
    requires p !in PlaceholderHits(source, 0) && q !in PlaceholderHits(source, 0)
    ensures MaskedText(source) == TwoLinks(front, p, q)
    ensures FinalWork(source).placeholders == [p, q] && FinalWork(source).mapping == map[p := u, q := v]
  {
    OnlyLinks(front, u, v);
    LinkPass(front, u, v, p, q, PlaceholderHits(source, 0));
    NothingMasked(InlineCode, source, InitialWork(source));
    NothingMasked(AngleLink, source, InitialWork(source));
  }

  lemma NothingMasked(pattern: Pattern, text: string, w: Work)
    requires FindAll(pattern, text, 0) == []
    ensures MaskPass(pattern, text, w) == (text, w)
  {
    assert text[0..] == text;
  }

  // ---------------------------------------------------------------- placeholders of the source

  lemma NoHitHere(text: string, i: nat)
    requires i < |text| && (i + 2 < |text| ==> text[i + 2] != 'O')
    ensures PlaceholderHits(text, i) == PlaceholderHits(text, i + 1)
  {
    OccursChar(text, i, PREFIX, 2);
  }

  lemma {:induction false} NoHitUpTo(text: string, i: nat, k: nat)
    requires i <= k <= |text| && forall j :: i + 2 <= j < k + 2 && j < |text| ==> text[j] != 'O'
    ensures PlaceholderHits(text, i) == PlaceholderHits(text, k)
    decreases k - i
  {
    if i < k {
      NoHitHere(text, i);
      NoHitUpTo(text, i + 1, k);
    }
  }

  /** No recognised placeholder starts in a piece, but for its last two characters, that has no capital O later on. */
  lemma HitsSkip(text: string, i: nat, piece: string)
    requires |piece| >= 2 && OccursAt(text, i, piece) && forall j :: 2 <= j < |piece| ==> piece[j] != 'O'
    ensures PlaceholderHits(text, i) == PlaceholderHits(text, i + |piece| - 2)
  {
    forall j | i + 2 <= j < i + |piece| ensures text[j] != 'O' { OccursChar(text, i, piece, j - i); }
    NoHitUpTo(text, i, i + |piece| - 2);
  }

  lemma DigitsStop(text: string, i: nat, d: string)
    requires OccursAt(text, i, d) && i + |d| < |text| && !IsDigit(text[i + |d|])
    requires forall j :: 0 <= j < |d| ==> IsDigit(d[j])
    ensures DigitRun(text, i) == i + |d|
    decreases |d|
  {
    if d != "" {
      OccursChar(text, i, d, 0);
      assert text[i + 1..i + |d|] == text[i..i + |d|][1..];
      DigitsStop(text, i + 1, d[1..]);
    }
  }

  lemma HitParts(d: string)
    ensures var p := PREFIX + d + "__";
            |p| == 12 + |d| && OccursAt(p, 0, PREFIX) && OccursAt(p, 10, d) && OccursAt(p, 10 + |d|, "__")
  {}

  lemma MatchThere(text: string, i: nat, d: string, p: string)
    requires p == PREFIX + d + "__" && OccursAt(text, i, p) && d != "" && forall j :: 0 <= j < |d| ==> IsDigit(d[j])
    ensures PlaceholderMatch(text, i) == Some(i + 12 + |d|)
  {
    HitParts(d);
    OccursTrans(text, i, p, 0, PREFIX);
    OccursTrans(text, i, p, 10, d);
    OccursTrans(text, i, p, 10 + |d|, "__");
    OccursChar(text, i + 10 + |d|, "__", 0);
    DigitsStop(text, i + 10, d);
  }

  lemma HitsTake(text: string, i: nat, d: string, p: string)
    requires p == PREFIX + d + "__" && OccursAt(text, i, p) && d != "" && forall j :: 0 <= j < |d| ==> IsDigit(d[j])
    ensures PlaceholderHits(text, i) == {p} + PlaceholderHits(text, i + 12 + |d|)
  {
    MatchThere(text, i, d, p);
  }

  lemma HitsEnd(text: string, i: nat)
    requires i <= |text| < i + 10
    ensures PlaceholderHits(text, i) == {}
    decreases |text| - i
  {}

  lemma OccursConcat(text: string, i: nat, a: string, b: string)
    requires OccursAt(text, i, a) && OccursAt(text, i + |a|, b)
    ensures OccursAt(text, i, a + b)
  {
    assert text[i..i + |a| + |b|] == text[i..i + |a|] + text[i + |a|..i + |a| + |b|];
  }

  lemma NextPiece(s: string, i: nat, x: string, rest: string)
    requires i <= |s| && s[i..] == x + rest
    ensures OccursAt(s, i, x) && s[i + |x|..] == rest
  {
    assert s[i..][..|x|] == x && s[i..][|x|..] == rest;
  }

  lemma Nested(a: string, b: string, c: string, d: string, e: string)
    ensures a + b + c + d + e == a + (b + (c + (d + e))) && a + b + c + d == a + (b + (c + d))
    ensures a + b + c + d + e == a + b + c + (d + e)
  {}

  const SEVEN := "__OC_I18N_7"
  const FIRST := "__OC_I18N_900000__"
  const MIDDLE := "_OC_I18N_9000"
  const SECOND := "__OC_I18N_900001__"
  const FRONT := SEVEN + FIRST + MIDDLE + SECOND
  const TARGET := "00__" + MIDDLE + SECOND

  lemma LinksNested(a: string, p: string, m: string, q: string, u: string, v: string)
    ensures TwoLinks(a + p + m + q, u, v) == a + (p + (m + (q + ("[](" + u + ")[](" + v + ")"))))
  {
    var front := a + p + m + q;
    var t := "[](" + u + ")[](" + v + ")";
    assert TwoLinks(front, u, v) == front + t by {
      assert front + "[](" + u + ")[](" + v + ")" == front + ("[](" + u + ")[](" + v + ")");
    }
    Nested(a, p, m, q, t);
  }

  lemma LinkTextNested(l: string, z: string, m: string, q: string, e: string)
    ensures l + (z + m + q) + e == l + (z + (m + (q + e)))
  {
    Nested(l, z, m, q, e);
    assert l + (z + m + q) + e == l + z + m + q + e;
  }

  ghost predicate Pieces(s: string) {
    && |s| == 104 && OccursAt(s, 0, SEVEN) && OccursAt(s, 11, FIRST) && OccursAt(s, 29, MIDDLE)
        && OccursAt(s, 42, SECOND)
    && OccursAt(s, 60, "[](_)[](") && OccursAt(s, 68, "00__") && OccursAt(s, 72, MIDDLE) && OccursAt(s, 85, SECOND)
    && OccursAt(s, 103, ")")
  }

  lemma Lengths()
    ensures |SEVEN| == 11 && |FIRST| == |SECOND| == 18 && |MIDDLE| == 13
  {}

  lemma NestedPieces(s: string, a: string, p: string, m: string, q: string, l: string, z: string, e: string)
    requires s == a + (p + (m + (q + (l + (z + (m + (q + e)))))))
    requires a == SEVEN && p == FIRST && m == MIDDLE && q == SECOND && l == "[](_)[](" && z == "00__" && e == ")"
    ensures Pieces(s)
  {
    Lengths();
    assert s[0..] == s && e + "" == e;
    NextPiece(s, 0, a, p + (m + (q + (l + (z + (m + (q + e)))))));
    NextPiece(s, 11, p, m + (q + (l + (z + (m + (q + e))))));
    NextPiece(s, 29, m, q + (l + (z + (m + (q + e)))));
    NextPiece(s, 42, q, l + (z + (m + (q + e))));
    NextPiece(s, 60, l, z + (m + (q + e)));
    NextPiece(s, 68, z, m + (q + e));
    NextPiece(s, 72, m, q + e);
    NextPiece(s, 85, q, e);
    NextPiece(s, 103, e, "");
  }

  lemma SourcePieces(s: string)
    requires s == TwoLinks(FRONT, "_", TARGET)
    ensures Pieces(s)
  {
    LinksNested(SEVEN, FIRST, MIDDLE, SECOND, "_", TARGET);
    assert "[](" + "_" + ")[](" == "[](_)[](";
    LinkTextNested("[](_)[](", "00__", MIDDLE, SECOND, ")");
    NestedPieces(s, SEVEN, FIRST, MIDDLE, SECOND, "[](_)[](", "00__", ")");
  }

  lemma Part(s: string, i: nat, x: string, j: nat, y: string)
    requires OccursAt(s, i, x) && j + |y| <= |x| && x[j..j + |y|] == y
    ensures OccursAt(s, i + j, y)
  {
    OccursTrans(s, i, x, j, y);
  }

  lemma TakeSeven(s: string)
    requires Pieces(s)
    ensures PlaceholderHits(s, 0) == {SEVEN + "__"} + PlaceholderHits(s, 13)
  {
    Part(s, 11, FIRST, 0, "__");
    OccursConcat(s, 0, SEVEN, "__");
    assert PREFIX + "7" + "__" == SEVEN + "__";
    HitsTake(s, 0, "7", SEVEN + "__");
  }

  lemma LaterCharacters()
    ensures forall j :: 3 <= j < 18 ==> FIRST[j] != 'O' && SECOND[j] != 'O'
  {
    Lengths();
    Numbers();
    ShowsUnderscores(900000);
    ShowsUnderscores(900001);
  }

  lemma SkipRest(s: string, i: nat, p: string, next: char)
    requires OccursAt(s, i, p) && OccursAt(s, i + 18, [next]) && next != 'O'
    requires |p| == 18 && forall j :: 3 <= j < 18 ==> p[j] != 'O'
    ensures PlaceholderHits(s, i + 2) == PlaceholderHits(s, i + 17)
  {
    OccursChar(s, i + 18, [next], 0);
    forall j | i + 4 <= j < i + 18 ensures s[j] != 'O' { OccursChar(s, i, p, j - i); }
    NoHitUpTo(s, i + 2, i + 17);
  }

  lemma SkipFirst(s: string)
    requires Pieces(s)
    ensures PlaceholderHits(s, 13) == PlaceholderHits(s, 28)
  {
    Part(s, 29, MIDDLE, 0, "_");
    LaterCharacters();
    SkipRest(s, 11, FIRST, '_');
  }

  lemma TakeMiddle(s: string, i: nat)
    requires OccursAt(s, i, "_") && OccursAt(s, i + 1, MIDDLE) && OccursAt(s, i + 14, SECOND)
    ensures PlaceholderHits(s, i) == {"_" + MIDDLE + "__"} + PlaceholderHits(s, i + 16)
  {
    Part(s, i + 14, SECOND, 0, "__");
    OccursConcat(s, i, "_", MIDDLE);
    OccursConcat(s, i, "_" + MIDDLE, "__");
    assert PREFIX + "9000" + "__" == "_" + MIDDLE + "__";
    HitsTake(s, i, "9000", "_" + MIDDLE + "__");
  }

  lemma SkipSecond(s: string, i: nat, next: char)
    requires OccursAt(s, i, SECOND) && OccursAt(s, i + 18, [next]) && next != 'O'
    ensures PlaceholderHits(s, i + 2) == PlaceholderHits(s, i + 17)
  {
    LaterCharacters();
    SkipRest(s, i, SECOND, next);
  }

  lemma SkipLink(s: string)
    requires Pieces(s)
    ensures PlaceholderHits(s, 59) == PlaceholderHits(s, 71)
  {
    Part(s, 42, SECOND, 17, "_");
    Part(s, 72, MIDDLE, 0, "_");
    OccursConcat(s, 59, "_", "[](_)[](");
    OccursConcat(s, 59, "_" + "[](_)[](", "00__");
    OccursConcat(s, 59, "_" + "[](_)[](" + "00__", "_");
    HitsSkip(s, 59, "_" + "[](_)[](" + "00__" + "_");
  }

  lemma FirstHits(s: string)
    requires Pieces(s)
    ensures PlaceholderHits(s, 13) == {"_" + MIDDLE + "__"} + PlaceholderHits(s, 44)
  {
    SkipFirst(s);
    Part(s, 11, FIRST, 17, "_");
    TakeMiddle(s, 28);
  }

  lemma SkipToTarget(s: string)
    requires Pieces(s)
    ensures PlaceholderHits(s, 44) == PlaceholderHits(s, 71)
  {
    Part(s, 60, "[](_)[](", 0, ['[']);
    SkipSecond(s, 42, '[');
    SkipLink(s);
  }

  lemma LastHits(s: string)
    requires Pieces(s)
    ensures PlaceholderHits(s, 71) == {"_" + MIDDLE + "__"}
  {
    Part(s, 68, "00__", 3, "_");
    TakeMiddle(s, 71);
    SkipSecond(s, 85, ')');
    HitsEnd(s, 102);
  }

  lemma SourceHits(s: string)
    requires Pieces(s)
    ensures PlaceholderHits(s, 0) == {SEVEN + "__", "_" + MIDDLE + "__"}
  {
    TakeSeven(s);
    FirstHits(s);
    SkipToTarget(s);
    LastHits(s);
  }

  // ---------------------------------------------------------------- two rounds of unmasking

  /** A character at which text at i differs from the placeholder. */
  predicate Clash(text: string, i: nat, p: string, k: nat) { k < |p| && i + k < |text| && text[i + k] != p[k] }

  predicate Clashes(text: string, i: nat, p: string) {
    Clash(text, i, p, 0) || Clash(text, i, p, 1) || Clash(text, i, p, 2) || Clash(text, i, p, 10) || Clash(text, i, p,
        14)
    || Clash(text, i, p, 15)
  }

  lemma ClashingIsElsewhere(text: string, tail: string, i: nat, p: string)
    requires Clashes(text, i, p)
    ensures !OccursAt(text + tail, i, p)
  {
    forall k: nat | Clash(text, i, p, k) ensures !OccursAt(text + tail, i, p) {
      OccursChar(text + tail, i, p, k);
    }
    assert Clash(text, i, p, 0) || Clash(text, i, p, 1) || Clash(text, i, p, 2) || Clash(text, i, p, 10)
        || Clash(text, i, p, 14) || Clash(text, i, p, 15);
  }

  lemma ClashingHead(head: string, ahead: string, rest: string, p: string, with: string)
    requires p != "" && forall i: nat :: i < |head| ==> Clashes(head + ahead, i, p)
    ensures ReplaceAll(head + (ahead + rest), p, with) == head + ReplaceAll(ahead + rest, p, with)
  {
    assert head + (ahead + rest) == head + ahead + rest;
    forall i: nat | i < |head| ensures !OccursAt(head + (ahead + rest), i, p) {
      ClashingIsElsewhere(head + ahead, rest, i, p);
    }
    ReplaceSkips(head, ahead + rest, p, with);
  }

  lemma ReplaceNext(a: string, ahead: string, p: string, rest: string, with: string)
    requires p != "" && HasPrefix(p, ahead) && forall i: nat :: i < |a| ==> Clashes(a + ahead, i, p)
    ensures ReplaceAll(a + (p + rest), p, with) == a + (with + ReplaceAll(rest, p, with))
  {
    assert ahead + (p[|ahead|..] + rest) == p + rest;
    ClashingHead(a, ahead, p[|ahead|..] + rest, p, with);
    ReplaceFirst(p, rest, with);
  }

  lemma ReplaceNothing(c: string, p: string, with: string)
    requires p != "" && forall i: nat :: i < |c| ==> Clashes(c, i, p)
    ensures ReplaceAll(c, p, with) == c
  {
    assert c + "" == c && c + ("" + "") == c;
    ClashingHead(c, "", "", p, with);
  }

  lemma ReplaceTwice(a: string, ahead: string, p: string, b: string, c: string, with: string)
    requires p != "" && HasPrefix(p, ahead) && forall i: nat :: i < |a| ==> Clashes(a + ahead, i, p)
    requires forall i: nat :: i < |b| ==> Clashes(b, i, p)
    requires forall i: nat :: i < |c| ==> Clashes(c, i, p)
    ensures ReplaceAll(a + (p + (b + (p + c))), p, with) == a + (with + (b + (with + c)))
  {
    assert b + "" == b;
    ReplaceNext(a, ahead, p, b + (p + c), with);
    ReplaceNext(b, "", p, c, with);
    ReplaceNothing(c, p, with);
  }

  lemma FirstRound(p: string, m: string, q: string, with: string)
    requires p == FIRST && m == MIDDLE && q == SECOND
    ensures var b, c := m + q + "[](", ")[](" + q + ")";
            ReplaceAll(SEVEN + (p + (b + (p + c))), p, with) == SEVEN + (with + (b + (with + c)))
  {
    ReplaceTwice(SEVEN, "", p, MIDDLE + SECOND + "[](", ")[](" + SECOND + ")", with);
  }

  lemma SecondRound(q: string, v: string)
    requires q == SECOND
    ensures var a := SEVEN + "_" + MIDDLE;
            ReplaceAll(a + (q + ("[](_)[](" + (q + ")"))), q, v) == a + (v + ("[](_)[](" + (v + ")")))
  {
    ReplaceTwice(SEVEN + "_" + MIDDLE, "_", q, "[](_)[](", ")", v);
  }

  // ---------------------------------------------------------------- not well masked

  /** The token of placeholder n is in one place at most. */
  predicate AtMostOnce(ts: seq<Tok>, n: nat) {
    ts == [] || (if ts[0] == Ph(n) then Ph(n) !in ts[1..] else AtMostOnce(ts[1..], n))
  }

  lemma {:induction false} CountedOnce(ts: seq<Tok>, n: nat)
    requires multiset(ts)[Ph(n)] <= 1
    ensures AtMostOnce(ts, n)
  {
    if ts != [] {
      assert ts == [ts[0]] + ts[1..];
      if ts[0] != Ph(n) { CountedOnce(ts[1..], n); }
    }
  }

  lemma NothingToShrink(ts: seq<Tok>, n: nat)
    requires Ph(n) !in ts
    ensures Subst(ts, n, []) == ts
  {
    if ts != [] { NothingToShrink(ts[1..], n); }
  }

  lemma {:induction false} ShrinksOnce(ts: seq<Tok>, n: nat)
    requires AtMostOnce(ts, n)
    ensures |Flatten(ts)| <= |Flatten(Subst(ts, n, []))| + |Placeholder(n)|
  {
    if ts != [] {
      FlattenHead(ts);
      if ts[0] == Ph(n) {
        NothingToShrink(ts[1..], n);
        assert [] + ts[1..] == ts[1..];
      } else {
        ShrinksOnce(ts[1..], n);
        FlattenHead([ts[0]] + Subst(ts[1..], n, []));
      }
    }
  }

  /** A placeholder in one place whose text can be taken out twice is stray. */
  lemma TwiceIsStray(ts: seq<Tok>, n: nat)
    requires AtMostOnce(ts, n) && |ReplaceAll(Flatten(ts), Placeholder(n), "")| + |Placeholder(n)| < |Flatten(ts)|
    ensures Stray(ts, n)
  {
    if !Stray(ts, n) {
      ReplaceIsSubst(ts, n, []);
      ShrinksOnce(ts, n);
    }
  }

  lemma TwiceIsNotWellMasked(source: string, n: nat, p: string)
    requires FinalWork(source).placeholders != [] && FinalWork(source).placeholders[0] == p == Placeholder(n)
    requires |ReplaceAll(MaskedText(source), p, "")| + |p| < |MaskedText(source)|
    ensures !WellMasked(source)
  {
    if l, work :| IsLayout(source, l, work) && IsWellMasked(l, work) {
      StoredAt(l, FinalWork(source), PlaceholderHits(source, 0), 0);
      PlaceholderInjective(l.names[0], n);
      assert multiset(work + Pool(l.values))[Ph(n)] == 1;
      assert Filled(work, l, 0) == work;
      CountedOnce(work, n);
      TwiceIsStray(work, n);
    }
  }

  // ---------------------------------------------------------------- the outcome

  lemma Numbers()
    ensures FIRST == Placeholder(900000) && SECOND == Placeholder(900001)
  {
    NumberOne();
    assert PREFIX + "900000" + "__" == FIRST;
    assert PREFIX + "900001" + "__" == SECOND;
  }

  lemma NumberOne()
    ensures Decimal(900000) == "900000" && Decimal(900001) == "900001"
  {
    assert Decimal(90000) == "90000";
  }

  lemma Fresh(s: string)
    requires Pieces(s)
    ensures FIRST !in PlaceholderHits(s, 0) && SECOND !in PlaceholderHits(s, 0)
  {
    SourceHits(s);
  }

  lemma PlainConcat(a: string, b: string)
    requires Plain(a) && Plain(b)
    ensures Plain(a + b)
  {}

  lemma PlainPieces()
    ensures Plain(SEVEN) && Plain(FIRST) && Plain(MIDDLE) && Plain(SECOND) && Plain("00__") && Plain("_")
  {}

  lemma PlainParts()
    ensures Plain(FRONT) && Plain(TARGET) && Plain("_") && TARGET != ""
  {
    PlainPieces();
    PlainConcat(SEVEN, FIRST);
    PlainConcat(SEVEN + FIRST, MIDDLE);
    PlainConcat(SEVEN + FIRST + MIDDLE, SECOND);
    PlainConcat("00__", MIDDLE);
    PlainConcat("00__" + MIDDLE, SECOND);
  }

  lemma SourceMasked(source: string)
    requires source == TwoLinks(FRONT, "_", TARGET)
    ensures MaskedText(source) == TwoLinks(FRONT, FIRST, SECOND)
    ensures FinalWork(source).placeholders == [FIRST, SECOND]
    ensures FinalWork(source).mapping == map[FIRST := "_", SECOND := TARGET]
  {
    Numbers();
    SourcePieces(source);
    Fresh(source);
    PlainParts();
    LinksMasked(source, FRONT, "_", TARGET, FIRST, SECOND);
  }

  lemma MaskedParts(p: string, m: string, q: string)
    ensures TwoLinks(SEVEN + p + m + q, p, q) == SEVEN + (p + ((m + q + "[](") + (p + (")[](" + q + ")"))))
  {
    LinksNested(SEVEN, p, m, q, p, q);
    assert "[](" + p + ")[](" + q + ")" == "[](" + (p + (")[](" + q + ")"));
    Nested(m, q, "[](", p, ")[](" + q + ")");
  }

  lemma BetweenRounds(m: string, q: string)
    ensures SEVEN + ("_" + ((m + q + "[](") + ("_" + (")[](" + q + ")"))))
         == (SEVEN + "_" + m) + (q + ("[](_)[](" + (q + ")")))
  {
    assert "[](" + ("_" + (")[](" + q + ")")) == "[](_)[](" + (q + ")");
    Nested(m, q, "[](", "_", ")[](" + q + ")");
    var rest := q + ("[](_)[](" + (q + ")"));
    Nested(SEVEN, "_", m, rest, "");
    assert rest + "" == rest;
  }

  lemma TargetCompletes(seven: string, m: string, z: string, q: string, p: string)
    requires "_" + m + z == p
    ensures seven + "_" + m + (z + m + q) == seven + p + m + q
  {}

  lemma AfterRounds(m: string, v: string, q: string)
    requires m == MIDDLE && v == "00__" + m + q
    ensures (SEVEN + "_" + m) + (v + ("[](_)[](" + (v + ")"))) == TwoLinks(SEVEN + FIRST + m + q, "_", v)
  {
    assert "_" + m + "00__" == FIRST;
    TargetCompletes(SEVEN, m, "00__", q, FIRST);
    LinkTail(SEVEN + "_" + m, v, SEVEN + FIRST + m + q);
  }

  lemma LinkTail(a: string, v: string, front: string)
    requires a + v == front
    ensures a + (v + ("[](_)[](" + (v + ")"))) == TwoLinks(front, "_", v)
  {
    assert "[](" + "_" + ")[](" == "[](_)[](";
    assert front + "[](" + "_" + ")[](" == front + ("[](" + "_" + ")[](");
  }

  lemma SourceRestored(source: string)
    requires source == TwoLinks(FRONT, "_", TARGET)
    ensures Unmask(TwoLinks(FRONT, FIRST, SECOND), [FIRST, SECOND], map[FIRST := "_", SECOND := TARGET]) == source
  {
    MaskedParts(FIRST, MIDDLE, SECOND);
    FirstRound(FIRST, MIDDLE, SECOND, "_");
    BetweenRounds(MIDDLE, SECOND);
    SecondRound(SECOND, TARGET);
    AfterRounds(MIDDLE, TARGET, SECOND);
    TwoRounds(TwoLinks(FRONT, FIRST, SECOND), FIRST, SECOND, "_", TARGET);
  }

  lemma TwoRounds(text: string, p: string, q: string, u: string, v: string)
    requires p != "" && q != "" && p != q
    ensures Unmask(text, [p, q], map[p := u, q := v]) == ReplaceAll(ReplaceAll(text, p, u), q, v)
  {
    var mapping := map[p := u, q := v];
    assert [p][..0] == [];
    assert Unmask(text, [p], mapping) == ReplaceAll(text, p, u);
    assert [p, q][..1] == [p];
  }

  lemma TwoInMasked(text: string)
    requires text == TwoLinks(FRONT, FIRST, SECOND)
    ensures |ReplaceAll(text, FIRST, "")| + |FIRST| < |text|
  {
    MaskedParts(FIRST, MIDDLE, SECOND);
    FirstRound(FIRST, MIDDLE, SECOND, "");
  }

  lemma BothPresent(front: string, p: string, q: string)
    ensures Contains(TwoLinks(front, p, q), p) && Contains(TwoLinks(front, p, q), q)
  {
    LinkParts(front, p, q);
    assert OccursAt(TwoLinks(front, p, q), |front| + 3, p);
    assert OccursAt(TwoLinks(front, p, q), |front| + 7 + |p|, q);
  }

  lemma SourceOutcome(source: string, text: string, ps: seq<string>)
    requires text == MaskedText(source) && ps == FinalWork(source).placeholders && ps == [FIRST, SECOND]
    requires Unmask(text, ps, FinalWork(source).mapping) == source
    requires Contains(text, FIRST) && Contains(text, SECOND) && |ReplaceAll(text, FIRST, "")| + |FIRST| < |text|
    ensures Accepted(source) && Restored(source) && !WellMasked(source)
  {
    Numbers();
    TwiceIsNotWellMasked(source, 900000, FIRST);
  }

  /**
   The "only if" needs its condition: echoed unchanged, this source is accepted and comes back as it was,
   although both placeholders are replaced at strays too.
   */
  lemma StraysCancel() returns (source: string)
    ensures source == TwoLinks(FRONT, "_", TARGET)
    ensures Accepted(source) && Restored(source) && !WellMasked(source)
  {
    source := TwoLinks(FRONT, "_", TARGET);
    SourceMasked(source);
    SourceRestored(source);
    BothPresent(FRONT, FIRST, SECOND);
    TwoInMasked(TwoLinks(FRONT, FIRST, SECOND));
    SourceOutcome(source, TwoLinks(FRONT, FIRST, SECOND), [FIRST, SECOND]);
  }
}
