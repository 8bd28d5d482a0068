/**
 Placeholder masking of the docs-i18n tool: code spans, angle links and link targets are
 replaced by fresh placeholders, the text is translated, validated and unmasked.
 */
module Masking {
  import opened Text

  // ---------------------------------------------------------------- placeholders

  const PREFIX := "__OC_I18N_"

  function Placeholder(n: nat): (p: string)
    ensures p != ""
  {
    PREFIX + Decimal(n) + "__"
  }

  /** A placeholder without its surrounding underscores. */
  function Core(n: nat): string { "OC_I18N_" + Decimal(n) }

  lemma PlaceholderInjective(m: nat, n: nat)
    requires Placeholder(m) == Placeholder(n)
    ensures m == n
  {
    var p := Placeholder(m);
    assert Decimal(m) == p[|PREFIX|..|p| - 2] == Decimal(n);
    DecimalInjective(m, n);
  }

  function DigitRun(text: string, i: nat): (k: nat)
    requires i <= |text|
    ensures i <= k <= |text| && forall j :: i <= j < k ==> IsDigit(text[j])
    ensures k < |text| ==> !IsDigit(text[k])
    decreases |text| - i
  {
    if i < |text| && IsDigit(text[i]) then DigitRun(text, i + 1) else i
  }

  /** The end of a match of the placeholder pattern that starts at i. */
  function PlaceholderMatch(text: string, i: nat): (end: Option<nat>)
    ensures end.Some? ==> i < end.value <= |text|
  {
    if OccursAt(text, i, PREFIX) then
      var k := DigitRun(text, i + |PREFIX|);
      if k > i + |PREFIX| && OccursAt(text, k, "__") then Some(k + 2) else None
    else None
  }

  /** All non-overlapping matches of the placeholder pattern, from position i on. */
  function PlaceholderHits(text: string, i: nat): set<string>
    requires i <= |text|
    decreases |text| - i
  {
    if i == |text| then {}
    else match PlaceholderMatch(text, i)
      case Some(end) => {text[i..end]} + PlaceholderHits(text, end)
      case None => PlaceholderHits(text, i + 1)
  }

  ghost function Above(used: set<string>, n: nat): set<string> {
    set x | x in used && forall m: nat :: m < n ==> x != Placeholder(m)
  }

  lemma AboveShrinks(used: set<string>, n: nat)
    requires Placeholder(n) in used
    ensures |Above(used, n + 1)| < |Above(used, n)|
  {
    forall m: nat | m < n ensures Placeholder(n) != Placeholder(m) {
      if Placeholder(n) == Placeholder(m) { PlaceholderInjective(m, n); }
    }
    assert Placeholder(n) in Above(used, n) && Placeholder(n) !in Above(used, n + 1);
    assert Above(used, n + 1) <= Above(used, n);
    StrictSubset(Above(used, n + 1), Above(used, n));
  }

  lemma StrictSubset(a: set<string>, b: set<string>)
    requires a < b
    ensures |a| < |b|
  {
    assert !(b <= a);
    var x :| x in b && x !in a;
    assert x in b - a;
    assert b == a + (b - a);
    assert |b| == |a| + |b - a|;
  }

  /** The first number at or after n whose placeholder is unused. */
  ghost function FreshFrom(used: set<string>, n: nat): (m: nat)
    ensures n <= m && Placeholder(m) !in used
    ensures forall k :: n <= k < m ==> Placeholder(k) in used
    decreases |Above(used, n)|
  {
    if Placeholder(n) !in used then n
    else
      AboveShrinks(used, n);
      FreshFrom(used, n + 1)
  }

  class PlaceholderState {
    var counter: nat
    var used: set<string>

    constructor (text: string)
      ensures counter == 900000 && used == PlaceholderHits(text, 0)
    {
      counter := 900000;
      used := {};
      new;
      var i := 0;
      while i < |text|
        invariant i <= |text| && counter == 900000
        invariant used + PlaceholderHits(text, i) == PlaceholderHits(text, 0)
        decreases |text| - i
      {
        match PlaceholderMatch(text, i)
        case Some(end) =>
          used := used + {text[i..end]};
          i := end;
        case None =>
          i := i + 1;
      }
    }

    method Next() returns (candidate: string, ghost n: nat)
      modifies this
      ensures n == FreshFrom(old(used), old(counter)) && candidate == Placeholder(n)
      ensures counter == n + 1 && used == old(used) + {candidate}
    {
      while true
        invariant used == old(used) && old(counter) <= counter
        invariant FreshFrom(used, counter) == FreshFrom(used, old(counter))
        decreases |Above(used, counter)|
      {
        n := counter;
        candidate := Placeholder(counter);
        counter := counter + 1;
        if candidate in used {
          AboveShrinks(used, n);
          continue;
        }
        used := used + {candidate};
        return;
      }
    }
  }

  // ---------------------------------------------------------------- pattern matches

  /** A match: where it starts, and the part of it to be masked. */
  datatype Span = Span(guard: nat, start: nat, stop: nat)

  datatype Pattern = InlineCode | AngleLink | LinkUrl

  datatype Match = Match(span: Span, end: nat)

  /** A non-empty run starting at `from` that stops just before the first `closing`. */
  function RunTo(text: string, from: nat, closing: char): (stop: Option<nat>)
    ensures stop.Some? ==> from < stop.value < |text| && text[stop.value] == closing
  {
    match IndexFrom(text, from, [closing])
    case Some(k) => if k > from then (assert text[k..k + 1] == [closing]; Some(k)) else None
    case None => None
  }

  predicate IsMatch(text: string, i: nat, m: Option<Match>) {
    m.Some? ==> && WellPlaced(text, m.value.span) && m.value.span.guard == i
                && i < m.value.end <= |text| && m.value.span.stop <= m.value.end
  }

  /** The whole match from i to the closing character. */
  function WholeMatch(text: string, i: nat, from: nat, closing: char): (m: Option<Match>)
    requires i < from && i < |text| && IsMark(text[i]) && IsMark(closing)
    ensures IsMatch(text, i, m)
  {
    var stop := RunTo(text, from, closing);
    if stop.Some? then Some(Match(Span(i, i, stop.value + 1), stop.value + 1)) else None
  }

  function LinkMatch(text: string, i: nat): (m: Option<Match>)
    ensures IsMatch(text, i, m)
  {
    if !OccursAt(text, i, "[") then None
    else
      var bracket := IndexFrom(text, i + 1, "]");
      if bracket.None? || !OccursAt(text, bracket.value, "](") then None
      else
        assert text[bracket.value + 1] == text[bracket.value..bracket.value + 2][1];
        var stop := RunTo(text, bracket.value + 2, ')');
        if stop.Some? then Some(Match(Span(i, bracket.value + 2, stop.value), stop.value + 1)) else None
  }

  function AngleMatch(text: string, i: nat): (m: Option<Match>)
    ensures IsMatch(text, i, m)
  {
    var opening := if OccursAt(text, i, "<https://") then 9 else if OccursAt(text, i, "<http://") then 8 else 0;
    if opening == 0 then None
    else
      assert text[i] == text[i..i + opening][0];
      WholeMatch(text, i, i + opening, '>')
  }

  /** A match of the pattern that starts at i: "`[^`]+`", "<https?://[^>]+>", or "\[[^\]]*\]\(([^)]+)\)". */
  function MatchAt(pattern: Pattern, text: string, i: nat): (m: Option<Match>)
    ensures IsMatch(text, i, m)
  {
    match pattern
    case InlineCode =>
      if !OccursAt(text, i, "`") then None
      else
        assert text[i..i + 1] == "`";
        WholeMatch(text, i, i + 1, '`')
    case AngleLink => AngleMatch(text, i)
    case LinkUrl => LinkMatch(text, i)
  }

  /** The masked part is in range, not empty, and lies between characters no placeholder contains. */
  predicate WellPlaced(text: string, s: Span) {
    && s.guard <= s.start < s.stop <= |text|
    && (IsMark(text[s.start]) || (s.start > 0 && IsMark(text[s.start - 1])))
    && (IsMark(text[s.stop - 1]) || (s.stop < |text| && IsMark(text[s.stop])))
  }

  predicate IsMark(c: char) { c in "`<>()" || IsSpace(c) }

  /** Leftmost, non-overlapping matches from position i on. */
  function FindAll(pattern: Pattern, text: string, i: nat): (spans: seq<Span>)
    requires i <= |text|
    ensures forall k :: 0 <= k < |spans| ==> WellPlaced(text, spans[k]) && i <= spans[k].guard
    ensures forall j, k :: 0 <= j < k < |spans| ==> spans[j].stop <= spans[k].guard
    decreases |text| - i
  {
    if i == |text| then []
    else match MatchAt(pattern, text, i)
      case Some(m) => [m.span] + FindAll(pattern, text, m.end)
      case None => FindAll(pattern, text, i + 1)
  }

  // ---------------------------------------------------------------- masking

  /** The allocator together with the placeholder list and the mapping it fills. */
  datatype Work = Work(counter: nat, used: set<string>, placeholders: seq<string>, mapping: map<string, string>)

  ghost function Recorded(w: Work, original: string): Work {
    var p := Placeholder(FreshFrom(w.used, w.counter));
    Work(FreshFrom(w.used, w.counter) + 1, w.used + {p}, w.placeholders + [p], w.mapping[p := original])
  }

  predicate InRange(text: string, spans: seq<Span>) {
    forall i :: 0 <= i < |spans| ==> spans[i].guard <= spans[i].start <= spans[i].stop <= |text|
  }

  /** What one pass makes of the text from `pos` on. */
  ghost function MaskFrom(text: string, pos: nat, spans: seq<Span>, w: Work): (string, Work)
    requires pos <= |text| && InRange(text, spans)
    decreases |spans|
  {
    if spans == [] then (text[pos..], w)
    else if spans[0].guard < pos then MaskFrom(text, pos, spans[1..], w)
    else
      var p := Placeholder(FreshFrom(w.used, w.counter));
      var (rest, w') := MaskFrom(text, spans[0].stop, spans[1..], Recorded(w, text[spans[0].start..spans[0].stop]));
      (text[pos..spans[0].start] + p + rest, w')
  }

  ghost function MaskPass(pattern: Pattern, text: string, w: Work): (string, Work) {
    MaskFrom(text, 0, FindAll(pattern, text, 0), w)
  }

  /** Code spans first, then angle links, then link targets. */
  ghost function MaskText(text: string, w: Work): (string, Work) {
    var (coded, w1) := MaskPass(InlineCode, text, w);
    var (angled, w2) := MaskPass(AngleLink, coded, w1);
    MaskPass(LinkUrl, angled, w2)
  }

  ghost function InitialWork(text: string): Work { Work(900000, PlaceholderHits(text, 0), [], map[]) }

  ghost predicate Continues(done: string, rest: (string, Work), goal: (string, Work)) {
    (done + rest.0, rest.1) == goal
  }

  lemma MaskFromCons(done: string, text: string, pos: nat, spans: seq<Span>, w: Work)
    requires pos <= |text| && InRange(text, spans) && spans != [] && pos <= spans[0].guard
    ensures var s, p := spans[0], Placeholder(FreshFrom(w.used, w.counter));
            var rest := MaskFrom(text, s.stop, spans[1..], Recorded(w, text[s.start..s.stop]));
            Continues(done + text[pos..s.start] + p, rest,
                (done + MaskFrom(text, pos, spans, w).0, MaskFrom(text, pos, spans, w).1))
  {
    var s, p := spans[0], Placeholder(FreshFrom(w.used, w.counter));
    var rest := MaskFrom(text, s.stop, spans[1..], Recorded(w, text[s.start..s.stop]));
    assert done + (text[pos..s.start] + p + rest.0) == done + text[pos..s.start] + p + rest.0;
  }

  class Masks {
    var placeholders: seq<string>
    var mapping: map<string, string>

    constructor ()
      ensures placeholders == [] && mapping == map[]
    {
      placeholders, mapping := [], map[];
    }

    ghost function View(state: PlaceholderState): Work
      reads this, state
    {
      Work(state.counter, state.used, placeholders, mapping)
    }

    method MaskMatches(text: string, spans: seq<Span>, state: PlaceholderState) returns (masked: string)
      requires InRange(text, spans)
      modifies this, state
      ensures (masked, View(state)) == MaskFrom(text, 0, spans, old(View(state)))
    {
      if |spans| == 0 { return text; }
      ghost var goal := MaskFrom(text, 0, spans, View(state));
      masked := "";
      var pos: nat := 0;
      assert spans[0..] == spans && "" + goal.0 == goal.0;
      for i := 0 to |spans|
        invariant pos <= |text|
        invariant Continues(masked, MaskFrom(text, pos, spans[i..], View(state)), goal)
      {
        var span := spans[i];
        assert spans[i..][0] == span && spans[i..][1..] == spans[i + 1..];
        if span.guard < pos { continue; }
        MaskFromCons(masked, text, pos, spans[i..], View(state));
        masked := masked + text[pos..span.start];
        var placeholder, n := state.Next();
        mapping := mapping[placeholder := text[span.start..span.stop]];
        placeholders := placeholders + [placeholder];
        masked := masked + placeholder;
        pos := span.stop;
      }
      masked := masked + text[pos..];
    }

    method MaskMarkdown(text: string, state: PlaceholderState) returns (masked: string)
      modifies this, state
      ensures (masked, View(state)) == MaskText(text, old(View(state)))
    {
      masked := MaskMatches(text, FindAll(InlineCode, text, 0), state);
      masked := MaskMatches(masked, FindAll(AngleLink, masked, 0), state);
      masked := MaskMatches(masked, FindAll(LinkUrl, masked, 0), state);
    }
  }

  function Unmask(text: string, placeholders: seq<string>, mapping: map<string, string>): string
    requires "" !in placeholders
  {
    if placeholders == [] then text
    else
      var last := |placeholders| - 1;
      var original := if placeholders[last] in mapping then mapping[placeholders[last]] else "";
      ReplaceAll(Unmask(text, placeholders[..last], mapping), placeholders[last], original)
  }

  method UnmaskMarkdown(text: string, placeholders: seq<string>, mapping: map<string, string>) returns (out: string)
    requires "" !in placeholders
    ensures out == Unmask(text, placeholders, mapping)
  {
    out := text;
    for i := 0 to |placeholders|
      invariant out == Unmask(text, placeholders[..i], mapping)
    {
      assert placeholders[..i + 1][..i] == placeholders[..i];
      var original := if placeholders[i] in mapping then mapping[placeholders[i]] else "";
      out := ReplaceAll(out, placeholders[i], original);
    }
    assert placeholders[..|placeholders|] == placeholders;
  }

  ghost predicate FirstMissing(text: string, placeholders: seq<string>, p: string) {
    exists i :: 0 <= i < |placeholders| && placeholders[i] == p && !Contains(text, p)
                && forall k :: 0 <= k < i ==> Contains(text, placeholders[k])
  }

  method ValidatePlaceholders(text: string, placeholders: seq<string>) returns (missing: Option<string>)
    ensures missing.None? <==> forall p :: p in placeholders ==> Contains(text, p)
    ensures missing.Some? ==> FirstMissing(text, placeholders, missing.value)
  {
    for i := 0 to |placeholders|
      invariant forall k :: 0 <= k < i ==> Contains(text, placeholders[k])
    {
      if IndexFrom(text, 0, placeholders[i]).None? {
        assert !Contains(text, placeholders[i]);
        return Some(placeholders[i]);
      }
      assert Contains(text, placeholders[i]);
    }
    missing := None;
  }
}
