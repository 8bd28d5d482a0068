/** Writing translated frontmatter values back, and the round trip of an echoed template. */
module FrontTranslations {
  import opened Text
  import opened FrontMarkers
  import opened MarkerRoundTrip

  function Padded(items: seq<Item>, n: nat): (r: seq<Item>)
    ensures |r| == (if |items| >= n then |items| else n) && items <= r
    ensures forall i :: |items| <= i < |r| ==> r[i] == Words("")
    decreases n - |items|
  {
    if |items| >= n then items else Padded(items + [Words("")], n)
  }

  method SetReadWhenValue(existing: Value, index: nat, value: string) returns (r: seq<Item>)
    ensures r == Updated(existing, index, value)
  {
    var readWhen := if existing.List? then existing.items else [];
    ghost var start := readWhen;
    while |readWhen| <= index
      invariant Padded(readWhen, index + 1) == Padded(start, index + 1)
      decreases index + 1 - |readWhen|
    {
      readWhen := readWhen + [Words("")];
    }
    r := readWhen[index := Words(value)];
  }

  function Updated(existing: Value, index: nat, value: string): seq<Item> {
    Padded(if existing.List? then existing.items else [], index + 1)[index := Words(value)]
  }

  function SetField(front: Front, field: Field, index: nat, value: string): Front {
    match field
    case Summary => front.(summary := Str(value))
    case Title => front.(title := Str(value))
    case ReadWhen => front.(readWhen := List(Updated(front.readWhen, index, value)))
  }

  /** The front matter after the markers, and the first marker text that is missing, where processing stops. */
  function Applied(front: Front, markers: seq<Marker>, text: string): (Front, Option<string>) {
    if markers == [] then (front, None)
    else
      var m := markers[|markers| - 1];
      var before := Applied(front, markers[..|markers| - 1], text);
      if before.1.Some? then before
      else
        match ExtractMarkerValue(text, m.start, m.end)
        case MissingMarker(marker) => (before.0, Some(marker))
        case Extracted(value) => (SetField(before.0, m.field, m.index, TrimSpace(value)), None)
  }

  /** Nothing is processed behind a missing marker. */
  lemma {:induction false} StopsAtMissing(front: Front, markers: seq<Marker>, text: string, n: nat)
    requires n <= |markers| && Applied(front, markers[..n], text).1.Some?
    ensures Applied(front, markers, text) == Applied(front, markers[..n], text)
  {
    if n == |markers| {
      assert markers[..n] == markers;
    } else {
      assert markers[..|markers| - 1][..n] == markers[..n];
      StopsAtMissing(front, markers[..|markers| - 1], text, n);
    }
  }

  class FrontData {
    var front: Front

    method ApplyFrontmatterTranslations(markers: seq<Marker>, translated: string) returns (missing: Option<string>)
      modifies this
      ensures (front, missing) == Applied(old(front), markers, translated)
    {
      for n := 0 to |markers|
        invariant (front, None) == Applied(old(front), markers[..n], translated)
      {
        var m := markers[n];
        assert markers[..n + 1][..n] == markers[..n];
        var value := ExtractMarkerValue(translated, m.start, m.end);
        if value.MissingMarker? {
          StopsAtMissing(old(front), markers, translated, n + 1);
          return Some(value.marker);
        }
        var trimmed := TrimSpace(value.value);
        match m.field {
          case Summary => front := front.(summary := Str(trimmed));
          case Title => front := front.(title := Str(trimmed));
          case ReadWhen =>
            var items := SetReadWhenValue(front.readWhen, m.index, trimmed);
            front := front.(readWhen := List(items));
        }
      }
      assert markers[..|markers|] == markers;
      missing := None;
    }
  }

  // ---------------------------------------------------------------- the echoed template

  function TrimmedItem(item: Item): Item { if item.Words? then Words(TrimSpace(item.text)) else item }

  function TrimmedTo(items: seq<Item>, n: nat): seq<Item> {
    seq(|items|, i requires 0 <= i < |items| => if i < n then TrimmedItem(items[i]) else items[i])
  }

  /** A translation has a text for every text, and everything else as it is. */
  predicate SameShape(front: Front, translated: Front) {
    && SameKind(front.summary, translated.summary) && SameKind(front.title, translated.title)
    && (if front.readWhen.List? && translated.readWhen.List?
        then SameItems(front.readWhen.items, translated.readWhen.items) else front.readWhen == translated.readWhen)
  }

  predicate SameKind(value: Value, translated: Value) { (value.Str? && translated.Str?) || value == translated }

  predicate SameItems(items: seq<Item>, translated: seq<Item>) {
    && |items| == |translated|
    && forall i :: 0 <= i < |items| ==> (items[i].Words? && translated[i].Words?) || items[i] == translated[i]
  }

  /** The first n items as translated and trimmed, the others as they were. */
  function MixedTo(items: seq<Item>, translated: seq<Item>, n: nat): seq<Item>
    requires SameItems(items, translated)
  {
    seq(|items|, i requires 0 <= i < |items| => if i < n then TrimmedItem(translated[i]) else items[i])
  }

  /** The front matter with every text value trimmed, and everything else as it was. */
  function TrimmedFront(front: Front): Front {
    Front(TrimmedStr(front.summary), TrimmedStr(front.title),
          if front.readWhen.List? then List(TrimmedTo(front.readWhen.items, |front.readWhen.items|))
          else front.readWhen)
  }

  function TrimmedStr(value: Value): Value { if value.Str? then Str(TrimSpace(value.text)) else value }

  /** Every marked line's value, trimmed, set in turn. */
  function SetLines(front: Front, lines: seq<Line>): Front {
    if lines == [] then front
    else
      var last := lines[|lines| - 1];
      var before := SetLines(front, lines[..|lines| - 1]);
      if last.Marked? then SetField(before, last.marker.field, last.marker.index, TrimSpace(last.value)) else before
  }

  lemma SetSnoc(front: Front, lines: seq<Line>, line: Line)
    ensures SetLines(front, lines + [line])
         == if line.Marked? then
              SetField(SetLines(front, lines), line.marker.field, line.marker.index, TrimSpace(line.value))
            else SetLines(front, lines)
  {
    assert (lines + [line])[..|lines|] == lines;
  }

  lemma TextsSet(front: Front, translated: Front)
    requires SameShape(front, translated)
    ensures SetLines(front, TextLines(translated))
           == Front(TrimmedStr(translated.summary), TrimmedStr(translated.title), front.readWhen)
  {
    var t := translated;
    var summary := if t.summary.Str? then [Marked("summary: ", MarkerPair(Summary, 0), t.summary.text)] else [];
    if t.summary.Str? { SetSnoc(front, [], summary[0]); }
    if t.title.Str? { SetSnoc(front, summary, Marked("title: ", MarkerPair(Title, 0), t.title.text)); }
  }

  lemma SetItem(items: seq<Item>, translated: seq<Item>, n: nat, front: Front)
    requires SameItems(items, translated) && n < |items| && front.readWhen == List(MixedTo(items, translated, n))
    ensures var line := ItemLine(translated, n);
            var after := if line.Marked? then SetField(front, ReadWhen, n, TrimSpace(line.value)) else front;
            after == front.(readWhen := List(MixedTo(items, translated, n + 1)))
  {
    var before, after' := MixedTo(items, translated, n), MixedTo(items, translated, n + 1);
    assert after' == before[n := TrimmedItem(translated[n])];
    assert translated[n].Thing? ==> after' == before;
  }

  lemma {:induction false} ItemsSet(front: Front, before: seq<Line>, items: seq<Item>, translated: seq<Item>, n: nat)
    requires SameItems(items, translated) && n <= |items| && SetLines(front, before).readWhen == List(items)
    ensures SetLines(front, before + ItemLines(translated, n))
           == SetLines(front, before).(readWhen := List(MixedTo(items, translated, n)))
  {
    if n == 0 {
      assert before + ItemLines(translated, 0) == before && MixedTo(items, translated, 0) == items;
    } else {
      ItemsSet(front, before, items, translated, n - 1);
      ItemLinesNext(translated, n - 1);
      var earlier := before + ItemLines(translated, n - 1);
      assert before + ItemLines(translated, n) == earlier + [ItemLine(translated, n - 1)];
      SetSnoc(front, earlier, ItemLine(translated, n - 1));
      SetItem(items, translated, n - 1, SetLines(front, earlier));
    }
  }

  lemma AllMixed(items: seq<Item>, translated: seq<Item>)
    requires SameItems(items, translated)
    ensures MixedTo(items, translated, |items|) == TrimmedTo(translated, |translated|)
  {}

  /** Setting every value of a translated template gives the translated front matter, trimmed. */
  lemma LinesSet(front: Front, translated: Front)
    requires SameShape(front, translated)
    ensures SetLines(front, LinesOf(translated)) == TrimmedFront(translated)
  {
    TextsSet(front, translated);
    if translated.readWhen.List? {
      var items := translated.readWhen.items;
      var before := TextLines(translated) + [Plain("read_when:")];
      SetSnoc(front, TextLines(translated), Plain("read_when:"));
      ItemsSet(front, before, front.readWhen.items, items, |items|);
      AllMixed(front.readWhen.items, items);
      assert LinesOf(translated) == before + ItemLines(items, |items|);
    } else {
      assert LinesOf(translated) == TextLines(translated);
    }
  }

  ghost predicate AllUnspoilt(lines: seq<Line>) {
    forall k: nat :: k < |lines| && lines[k].Marked? ==> Unspoilt(lines, k)
  }

  ghost predicate AllExtracted(lines: seq<Line>, text: string) {
    forall k: nat :: k < |lines| && lines[k].Marked?
      ==> ExtractMarkerValue(text, lines[k].marker.start, lines[k].marker.end) == Extracted(lines[k].value)
  }

  lemma AppliedPlain(front: Front, lines: seq<Line>, line: Line, text: string)
    requires line.Plain? && Applied(front, MarkersOf(lines), text) == (SetLines(front, lines), None)
    ensures Applied(front, MarkersOf(lines + [line]), text) == (SetLines(front, lines + [line]), None)
  {
    MarkersSnoc(lines, line);
    SetSnoc(front, lines, line);
    assert MarkersOf(lines + [line]) == MarkersOf(lines);
  }

  lemma {:induction false} AppliedLines(front: Front, lines: seq<Line>, text: string)
    requires AllExtracted(lines, text)
    ensures Applied(front, MarkersOf(lines), text) == (SetLines(front, lines), None)
  {
    if lines != [] {
      var init, last := lines[..|lines| - 1], lines[|lines| - 1];
      AppliedLines(front, init, text);
      assert lines == init + [last];
      if last.Marked? {
        assert lines[|lines| - 1].Marked?;
      } else {
        AppliedPlain(front, init, last, text);
      }
    }
  }

  // ---------------------------------------------------------------- the markers of a template

  /** The field and index that a marked line of the template stands for. */
  function LineKey(front: Front, k: nat): (Field, nat) {
    var texts := |TextLines(front)|;
    if k < texts then (if k == 0 && front.summary.Str? then Summary else Title, 0)
    else (ReadWhen, if k > texts then k - texts - 1 else 0)
  }

  lemma ItemMarker(items: seq<Item>, i: nat)
    requires i < |items| && ItemLine(items, i).Marked?
    ensures ItemLine(items, i).marker == MarkerPair(ReadWhen, i) && '[' !in ItemLine(items, i).prefix
  {}

  lemma TextMarker(front: Front, k: nat)
    requires k < |TextLines(front)|
    ensures TextLines(front)[k].Marked? && '[' !in TextLines(front)[k].prefix
    ensures TextLines(front)[k].marker == MarkerPair(LineKey(front, k).0, LineKey(front, k).1)
  {}

  lemma LineMarker(front: Front, k: nat)
    requires k < |LinesOf(front)| && LinesOf(front)[k].Marked?
    ensures LinesOf(front)[k].marker == MarkerPair(LineKey(front, k).0, LineKey(front, k).1)
    ensures k != |TextLines(front)|
    ensures '[' !in LinesOf(front)[k].prefix
  {
    var texts := |TextLines(front)|;
    if k < texts {
      TextMarker(front, k);
    } else {
      assert LinesOf(front)[k] == ListLines(front.readWhen)[k - texts];
      ListMarker(front.readWhen, k - texts);
    }
  }

  lemma ListMarker(readWhen: Value, i: nat)
    requires i < |ListLines(readWhen)| && ListLines(readWhen)[i].Marked?
    ensures i > 0 && ListLines(readWhen)[i].marker == MarkerPair(ReadWhen, i - 1)
           && '[' !in ListLines(readWhen)[i].prefix
  {
    ItemMarker(readWhen.items, i - 1);
  }

  lemma TemplateIsWellMarked(front: Front)
    ensures WellMarked(LinesOf(front))
  {
    var lines := LinesOf(front);
    forall k: nat | k < |lines| && lines[k].Marked? ensures IsMarkedLine(lines[k]) {
      LineMarker(front, k);
      MarkerIsToken(LineKey(front, k).0, LineKey(front, k).1, Start);
      MarkerIsToken(LineKey(front, k).0, LineKey(front, k).1, End);
    }
    forall j: nat, k: nat | j < |lines| && k < |lines| && lines[j].Marked? && lines[k].Marked?
      ensures (j != k ==> lines[j].marker.start != lines[k].marker.start)
             && lines[j].marker.end != lines[k].marker.start
    {
      StartsDiffer(front, j, k);
    }
  }

  lemma StartsDiffer(front: Front, j: nat, k: nat)
    requires j < |LinesOf(front)| && k < |LinesOf(front)| && LinesOf(front)[j].Marked? && LinesOf(front)[k].Marked?
    ensures j != k ==> LinesOf(front)[j].marker.start != LinesOf(front)[k].marker.start
    ensures LinesOf(front)[j].marker.end != LinesOf(front)[k].marker.start
  {
    LineMarker(front, j);
    LineMarker(front, k);
    var a, b := LineKey(front, j), LineKey(front, k);
    if MarkerText(a.0, a.1, Start) == MarkerText(b.0, b.1, Start) { MarkersDiffer(a.0, a.1, Start, b.0, b.1, Start); }
    if MarkerText(a.0, a.1, End) == MarkerText(b.0, b.1, Start) { MarkersDiffer(a.0, a.1, End, b.0, b.1, Start); }
  }

  // ---------------------------------------------------------------- the round trip

  lemma {:induction false} MarkersConcat(a: seq<Line>, b: seq<Line>)
    ensures MarkersOf(a + b) == MarkersOf(a) + MarkersOf(b)
  {
    if b == [] {
      assert a + b == a;
    } else {
      var init, last := b[..|b| - 1], b[|b| - 1];
      MarkersConcat(a, init);
      assert a + b == a + init + [last];
      MarkersSnoc(a + init, last);
    }
  }

  lemma OneMarker(line: Line)
    ensures MarkersOf([line]) == if line.Marked? then [line.marker] else []
  {
    MarkersSnoc([], line);
    assert [] + [line] == [line];
  }

  lemma {:induction false} SameItemMarkers(items: seq<Item>, translated: seq<Item>, n: nat)
    requires SameItems(items, translated) && n <= |items|
    ensures MarkersOf(ItemLines(items, n)) == MarkersOf(ItemLines(translated, n))
  {
    if n > 0 {
      SameItemMarkers(items, translated, n - 1);
      ItemLinesNext(items, n - 1);
      ItemLinesNext(translated, n - 1);
      MarkersSnoc(ItemLines(items, n - 1), ItemLine(items, n - 1));
      MarkersSnoc(ItemLines(translated, n - 1), ItemLine(translated, n - 1));
    }
  }

  lemma SameListMarkers(items: seq<Item>, translated: seq<Item>)
    requires SameItems(items, translated)
    ensures MarkersOf(ListLines(List(items))) == MarkersOf(ListLines(List(translated)))
  {
    var header := [Plain("read_when:")];
    MarkersConcat(header, ItemLines(items, |items|));
    MarkersConcat(header, ItemLines(translated, |translated|));
    SameItemMarkers(items, translated, |items|);
  }

  lemma SameTextMarkers(front: Front, translated: Front)
    requires SameKind(front.summary, translated.summary) && SameKind(front.title, translated.title)
    ensures MarkersOf(TextLines(front)) == MarkersOf(TextLines(translated))
  {
    TextMarkers(front);
    TextMarkers(translated);
  }

  lemma TextMarkers(front: Front)
    ensures MarkersOf(TextLines(front)) == (if front.summary.Str? then [MarkerPair(Summary, 0)] else [])
                                           + (if front.title.Str? then [MarkerPair(Title, 0)] else [])
  {
    var summary := if front.summary.Str? then [Marked("summary: ", MarkerPair(Summary, 0), front.summary.text)] else [];
    var title := if front.title.Str? then [Marked("title: ", MarkerPair(Title, 0), front.title.text)] else [];
    MarkersConcat(summary, title);
    if front.summary.Str? { OneMarker(summary[0]); }
    if front.title.Str? { OneMarker(title[0]); }
  }

  /** A translation has the markers of its source. */
  lemma SameMarkers(front: Front, translated: Front)
    requires SameShape(front, translated)
    ensures MarkersOf(LinesOf(front)) == MarkersOf(LinesOf(translated))
  {
    MarkersConcat(TextLines(front), ListLines(front.readWhen));
    MarkersConcat(TextLines(translated), ListLines(translated.readWhen));
    SameTextMarkers(front, translated);
    if front.readWhen.List? { SameListMarkers(front.readWhen.items, translated.readWhen.items); }
  }

  /** Whatever else a translated template says, the front matter gets the values between its markers, trimmed. */
  lemma TranslationApplies(front: Front, translated: Front, text: string)
    requires SameShape(front, translated) && AllExtracted(LinesOf(translated), text)
    ensures Applied(front, MarkersOf(LinesOf(front)), text) == (TrimmedFront(translated), None)
  {
    SameMarkers(front, translated);
    AppliedLines(front, LinesOf(translated), text);
    LinesSet(front, translated);
  }

  /** The template of unspoilt values holds them all. */
  lemma TemplateHoldsValues(front: Front)
    requires AllUnspoilt(LinesOf(front))
    ensures AllExtracted(LinesOf(front), TemplateText(LinesOf(front)))
  {
    var lines := LinesOf(front);
    var text := TemplateText(lines);
    TemplateIsWellMarked(front);
    var at := TemplateIsLaid(lines);
    forall k: nat | k < |lines| && lines[k].Marked?
      ensures ExtractMarkerValue(text, lines[k].marker.start, lines[k].marker.end) == Extracted(lines[k].value)
    {
      assert Unspoilt(lines, k);
      UnspoiltIsExtracted(lines, ShownLines(lines), k, text, at);
    }
  }

  /** Applying an echoed template trims every text value in its place, when no value is spoilt by another's markers. */
  lemma EchoedTemplateTrims(front: Front)
    requires AllUnspoilt(LinesOf(front))
    ensures Applied(front, MarkersOf(LinesOf(front)), TemplateText(LinesOf(front))) == (TrimmedFront(front), None)
  {
    TemplateHoldsValues(front);
    TranslationApplies(front, front, TemplateText(LinesOf(front)));
  }

  /** The first marker that is not found stops the processing, and is reported. */
  lemma FirstLostMarker(front: Front, markers: seq<Marker>, n: nat, text: string)
    requires n < |markers| && Applied(front, markers[..n], text).1.None?
    requires ExtractMarkerValue(text, markers[n].start, markers[n].end).MissingMarker?
    ensures Applied(front, markers, text)
         == (Applied(front, markers[..n], text).0,
             Some(ExtractMarkerValue(text, markers[n].start, markers[n].end).marker))
  {
    assert markers[..n + 1][..n] == markers[..n];
    StopsAtMissing(front, markers, text, n + 1);
  }

  // ---------------------------------------------------------------- any text

  lemma NoStartWithin(text: string, x: string, start: string, i: nat)
    requires IsToken(start) && |x| <= |text| && text[0..|x|] == x && OccursAt(text, |x|, start) && !Contains(x, start)
    requires i < |x|
    ensures !OccursAt(text, i, start)
  {
    if i + |start| <= |x| {
      SliceSlice(text, 0, |x|, i, i + |start|);
      assert !OccursAt(x, i, start);
    } else if OccursAt(text, i, start) {
      TokensApart(text, i, start, |x|, start);
    }
  }

  /** Between the first start marker and the first end marker behind it stands the value. */
  lemma ValueBetween(text: string, x: string, start: string, v: string, end: string, y: string)
    requires text == x + start + v + end + y && IsToken(start) && IsToken(end)
    requires !Contains(x, start) && !Contains(v, end)
    ensures ExtractMarkerValue(text, start, end) == Extracted(v)
  {
    FiveParts(text, x, start, v, end, y);
    forall i: nat | i < |x| ensures !OccursAt(text, i, start) { NoStartWithin(text, x, start, i); }
    PairWins(text, |x|, start, v, end);
  }

  lemma FiveParts(text: string, x: string, start: string, v: string, end: string, y: string)
    requires text == x + start + v + end + y
    ensures OccursAt(text, |x|, start) && OccursAt(text, |x| + |start|, v)
    ensures OccursAt(text, |x| + |start| + |v|, end) && |x| <= |text| && text[0..|x|] == x
  {}

  lemma StartLost(text: string, start: string, end: string)
    requires !Contains(text, start)
    ensures ExtractMarkerValue(text, start, end) == MissingMarker(start)
  {}

  lemma EndLost(text: string, start: string, end: string, x: string, y: string)
    requires text == x + start + y && IsToken(start) && !Contains(x, start) && !Contains(y, end)
    ensures ExtractMarkerValue(text, start, end) == MissingMarker(end)
  {
    assert text == x + start + y + "" + "";
    FiveParts(text, x, start, y, "", "");
    forall i: nat | i < |x| ensures !OccursAt(text, i, start) { NoStartWithin(text, x, start, i); }
    IndexIs(text, 0, start, |x|);
    var from := |x| + |start|;
    assert text[from..|text|] == y;
    NotInRest(text, from, y, end);
  }

  lemma NotInRest(text: string, from: nat, y: string, end: string)
    requires from <= |text| && text[from..|text|] == y && !Contains(y, end)
    ensures IndexFrom(text, from, end) == None
  {
    if IndexFrom(text, from, end).Some? {
      var i := IndexFrom(text, from, end).value;
      SliceSlice(text, from, |text|, i - from, i - from + |end|);
      assert OccursAt(y, i - from, end);
    }
  }

  const MARKER_PREFIX := "[[[FM_"

  /** Values free of the marker prefix are unspoilt. */
  lemma PlainValuesAreUnspoilt(front: Front)
    requires forall k :: 0 <= k < |LinesOf(front)| ==> !Contains(FreeText(LinesOf(front)[k]), MARKER_PREFIX)
    ensures AllUnspoilt(LinesOf(front))
  {
    var lines := LinesOf(front);
    forall k: nat | k < |lines| && lines[k].Marked? ensures Unspoilt(lines, k) {
      LineMarker(front, k);
      forall j | 0 <= j < k ensures !Contains(FreeText(lines[j]), lines[k].marker.start) {
        NoMarkerInside(FreeText(lines[j]), LineKey(front, k).0, LineKey(front, k).1, Start);
      }
      NoMarkerInside(lines[k].value, LineKey(front, k).0, LineKey(front, k).1, End);
    }
  }

  lemma NoMarkerInside(text: string, field: Field, index: nat, edge: Edge)
    requires !Contains(text, MARKER_PREFIX)
    ensures !Contains(text, MarkerText(field, index, edge))
  {
    var marker := MarkerText(field, index, edge);
    assert marker[0..6] == MARKER_PREFIX;
    assert OccursAt(marker, 0, MARKER_PREFIX);
    if Contains(text, marker) { ContainsTrans(text, marker, MARKER_PREFIX); }
  }

  lemma EndWithin(text: string, from: nat, x: string, end: string, i: nat)
    requires OccursAt(text, from, x) && OccursAt(text, from + |x|, end) && IsToken(end)
    requires from <= i < from + |x| && OccursAt(text, i, end)
    ensures OccursAt(x, i - from, end)
  {
    TokensApart(text, i, end, from + |x|, end);
    SliceSlice(text, from, from + |x|, i - from, i - from + |end|);
  }

  lemma PairLies(text: string, v: nat, start: string, x: string, end: string)
    requires OccursAt(text, v, start + x + end)
    ensures OccursAt(text, v, start) && OccursAt(text, v + |start|, x) && OccursAt(text, v + |start| + |x|, end)
  {
    var pair := start + x + end;
    OccursTrans(text, v, pair, 0, start);
    OccursTrans(text, v, pair, |start|, x);
    OccursTrans(text, v, pair, |start| + |x|, end);
  }

  /** Markers with x in between, at v, and no start marker before: extraction returns x. */
  lemma PairWins(text: string, v: nat, start: string, x: string, end: string)
    requires IsToken(end) && !Contains(x, end)
    requires OccursAt(text, v, start) && OccursAt(text, v + |start|, x) && OccursAt(text, v + |start| + |x|, end)
    requires forall i: nat :: i < v ==> !OccursAt(text, i, start)
    ensures ExtractMarkerValue(text, start, end) == Extracted(x)
  {
    EndAfter(text, v + |start|, x, end);
  }

  lemma EndAfter(text: string, from: nat, x: string, end: string)
    requires OccursAt(text, from, x) && OccursAt(text, from + |x|, end) && IsToken(end) && !Contains(x, end)
    ensures FirstAt(text, from, end, from + |x|)
  {
    forall i: nat | from <= i < from + |x| ensures !OccursAt(text, i, end) {
      if OccursAt(text, i, end) { EndWithin(text, from, x, end, i); }
    }
  }

  /** Before its value, a first line has no marker but its own. */
  lemma NothingBeforeValue(line: Line, row: string, text: string, start: string)
    requires IsMarkedLine(line) && ShownAs(line, row) && RowAt(text, 0, row) && IsToken(start)
           && start != line.marker.start
    ensures OccursAt(text, ValueAt(line), line.value)
    ensures forall i: nat :: i < ValueAt(line) ==> !OccursAt(text, i, start)
  {
    LineLies(line, row, text, 0);
    forall i: nat | i < ValueAt(line) ensures !OccursAt(text, i, start) {
      if OccursAt(text, i, start) {
        InRow(text, 0, row, i, start);
        TokenInMarked(line, row, i, start);
      }
    }
  }

  /** A summary that itself holds a pair of title markers: the echoed title is read from it, whatever the title was. */
  lemma SpoiltTitle(front: Front, title: Marker, x: string)
    requires title == MarkerPair(Title, 0) && !Contains(x, title.end)
    requires front.summary == Str(title.start + x + title.end) && front.title.Str?
    ensures ExtractMarkerValue(TemplateText(LinesOf(front)), title.start, title.end) == Extracted(x)
  {
    var lines := LinesOf(front);
    TemplateIsWellMarked(front);
    MarkerIsToken(Title, 0, Start);
    MarkerIsToken(Title, 0, End);
    assert lines[0] == TextLines(front)[0] && lines[1] == TextLines(front)[1];
    assert lines[0].value == title.start + x + title.end && lines[1].marker == title;
    var rows := ShownLines(lines);
    RowLies(rows, 0);
    LineIsShown(lines[0], rows[0]);
    NothingBeforeValue(lines[0], rows[0], TemplateText(lines), title.start);
    PairLies(TemplateText(lines), ValueAt(lines[0]), title.start, x, title.end);
    PairWins(TemplateText(lines), ValueAt(lines[0]), title.start, x, title.end);
  }
}
