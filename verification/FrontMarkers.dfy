/**
 * The frontmatter template with its markers, and the values read back from a translation
 * (scripts/docs-i18n/doc_mode.go).
 */
module FrontMarkers {
  import opened Text
  import opened FrontMatter

  datatype Item = Words(text: string) | Thing(shown: string)

  /** A frontmatter value: a string, a list, or something else, if it is there at all. */
  datatype Value = Absent | Str(text: string) | List(items: seq<Item>) | Other

  datatype Front = Front(summary: Value, title: Value, readWhen: Value)

  datatype Field = Summary | Title | ReadWhen

  datatype Marker = Marker(field: Field, index: nat, start: string, end: string)

  // ---------------------------------------------------------------- markers

  function FieldName(field: Field): string {
    match field case Summary => "SUMMARY" case Title => "TITLE" case ReadWhen => "READ_WHEN"
  }

  datatype Edge = Start | End

  function EdgeName(edge: Edge): string {
    match edge case Start => "START" case End => "END"
  }

  function MarkerBody(field: Field, index: nat, edge: Edge): string {
    "FM_" + (FieldName(field) + ("_" + (Decimal(index) + ("_" + EdgeName(edge)))))
  }

  function MarkerText(field: Field, index: nat, edge: Edge): string { "[[[" + MarkerBody(field, index, edge) + "]]]" }

  function MarkerPair(field: Field, index: nat): Marker {
    Marker(field, index, MarkerText(field, index, Start), MarkerText(field, index, End))
  }

  /** Brackets only at the two ends, and no line break. */
  predicate IsToken(t: string) {
    && |t| >= 7 && t[0] == t[1] == t[2] == '['
    && (forall i :: 3 <= i < |t| ==> t[i] != '[' && t[i] != '\n')
    && t[|t| - 3] == ']' && (forall i :: 0 <= i < |t| - 3 ==> t[i] != ']')
  }

  predicate IsInner(t: string) { forall i :: 0 <= i < |t| ==> t[i] != '[' && t[i] != ']' && t[i] != '\n' }

  lemma InnerConcat(a: string, b: string)
    requires IsInner(a) && IsInner(b)
    ensures IsInner(a + b)
  {}

  lemma MarkerIsToken(field: Field, index: nat, edge: Edge)
    ensures IsToken(MarkerText(field, index, edge))
  {
    InnerConcat("_", EdgeName(edge));
    InnerConcat(Decimal(index), "_" + EdgeName(edge));
    InnerConcat("_", Decimal(index) + ("_" + EdgeName(edge)));
    InnerConcat(FieldName(field), "_" + (Decimal(index) + ("_" + EdgeName(edge))));
    InnerConcat("FM_", FieldName(field) + ("_" + (Decimal(index) + ("_" + EdgeName(edge)))));
  }

  /** The parts of "[[[FM_" + name + "_" + digits + "_" + edge + "]]]". */
  lemma NestedParts(name: string, digits: string, edge: string, t: string)
    requires t == "[[[" + ("FM_" + (name + ("_" + (digits + ("_" + edge))))) + "]]]" && name != "" && edge != ""
    ensures |t| == 11 + |name| + |digits| + |edge|
    ensures t[6] == name[0] && t[|t| - 4] == edge[|edge| - 1]
    ensures t[7 + |name|..|t| - |edge| - 4] == digits
  {
    var body, k := digits + ("_" + edge), 7 + |name|;
    assert t[k..|t| - 3] == body && body[..|digits|] == digits && body[|body| - 1] == edge[|edge| - 1];
  }

  lemma MarkerParts(f: Field, i: nat, s: Edge, t: string)
    requires t == MarkerText(f, i, s)
    ensures |t| >= 11 + |FieldName(f)| + |EdgeName(s)|
    ensures t[6] == FieldName(f)[0]
    ensures t[|t| - 4] == EdgeName(s)[|EdgeName(s)| - 1]
    ensures t[7 + |FieldName(f)|..|t| - |EdgeName(s)| - 4] == Decimal(i)
  {
    NestedParts(FieldName(f), Decimal(i), EdgeName(s), t);
  }

  lemma MarkersDiffer(f: Field, i: nat, s: Edge, g: Field, j: nat, r: Edge)
    requires MarkerText(f, i, s) == MarkerText(g, j, r)
    ensures f == g && i == j && s == r
  {
    var t := MarkerText(f, i, s);
    MarkerParts(f, i, s, t);
    MarkerParts(g, j, r, t);
    NamesDiffer(f, s, g, r);
    DecimalInjective(i, j);
  }

  lemma NamesDiffer(f: Field, s: Edge, g: Field, r: Edge)
    ensures FieldName(f)[0] == FieldName(g)[0] ==> f == g
    ensures EdgeName(s)[|EdgeName(s)| - 1] == EdgeName(r)[|EdgeName(r)| - 1] ==> s == r
  {}

  // ---------------------------------------------------------------- the template

  datatype Line = Marked(prefix: string, marker: Marker, value: string) | Plain(text: string)

  function Shown(line: Line): string {
    match line
    case Marked(prefix, marker, value) => prefix + marker.start + value + marker.end
    case Plain(text) => text
  }

  /** The part of a line that is not the template's own. */
  function FreeText(line: Line): string { if line.Marked? then line.value else line.text }

  function ShownLines(lines: seq<Line>): seq<string> { seq(|lines|, i requires 0 <= i < |lines| => Shown(lines[i])) }

  function ItemLine(items: seq<Item>, i: nat): Line
    requires i < |items|
  {
    match items[i]
    case Words(text) => Marked("  - ", MarkerPair(ReadWhen, i), text)
    case Thing(shown) => Plain("  - " + shown)
  }

  function TextLines(front: Front): seq<Line> {
    (if front.summary.Str? then [Marked("summary: ", MarkerPair(Summary, 0), front.summary.text)] else [])
    + (if front.title.Str? then [Marked("title: ", MarkerPair(Title, 0), front.title.text)] else [])
  }

  function ItemLines(items: seq<Item>, n: nat): seq<Line>
    requires n <= |items|
  {
    seq(n, i requires 0 <= i < n => ItemLine(items, i))
  }

  function ListLines(readWhen: Value): seq<Line> {
    if readWhen.List? then [Plain("read_when:")] + ItemLines(readWhen.items, |readWhen.items|) else []
  }

  function LinesOf(front: Front): seq<Line> { TextLines(front) + ListLines(front.readWhen) }

  function MarkersOf(lines: seq<Line>): seq<Marker> {
    if lines == [] then []
    else
      var last := lines[|lines| - 1];
      MarkersOf(lines[..|lines| - 1]) + if last.Marked? then [last.marker] else []
  }

  lemma MarkersSnoc(lines: seq<Line>, line: Line)
    ensures MarkersOf(lines + [line]) == MarkersOf(lines) + if line.Marked? then [line.marker] else []
  {
    assert (lines + [line])[..|lines|] == lines;
  }

  lemma ItemLinesNext(items: seq<Item>, n: nat)
    requires n < |items|
    ensures ItemLines(items, n + 1) == ItemLines(items, n) + [ItemLine(items, n)]
  {}

  /** The lines of a list, appended one by one with the markers of those that carry text. */
  method AppendItems(items: seq<Item>, lines: seq<string>, markers: seq<Marker>, ghost before: seq<Line>)
    returns (allLines: seq<string>, allMarkers: seq<Marker>)
    requires lines == ShownLines(before) && markers == MarkersOf(before)
    ensures allLines == ShownLines(before + ItemLines(items, |items|))
    ensures allMarkers == MarkersOf(before + ItemLines(items, |items|))
  {
    allLines, allMarkers := lines, markers;
    ghost var all := before;
    for idx := 0 to |items|
      invariant all == before + ItemLines(items, idx)
      invariant allLines == ShownLines(all) && allMarkers == MarkersOf(all)
    {
      var line := ItemLine(items, idx);
      MarkersSnoc(all, line);
      ItemLinesNext(items, idx);
      if line.Marked? {
        allMarkers := allMarkers + [line.marker];
      }
      allLines := allLines + [Shown(line)];
      all := all + [line];
    }
  }

  lemma HeaderShown(before: seq<Line>, header: Line)
    requires header.Plain?
    ensures ShownLines(before + [header]) == ShownLines(before) + [header.text]
    ensures MarkersOf(before + [header]) == MarkersOf(before)
  {
    MarkersSnoc(before, header);
    assert MarkersOf(before) + [] == MarkersOf(before);
  }

  lemma ListBehind(before: seq<Line>, readWhen: Value)
    ensures readWhen.List? ==>
              before + [Plain("read_when:")] + ItemLines(readWhen.items, |readWhen.items|)
              == before + ListLines(readWhen)
    ensures !readWhen.List? ==> before + ListLines(readWhen) == before
  {}

  /** The list of a front, appended when there is one. */
  method AppendReadWhen(readWhen: Value, lines: seq<string>, markers: seq<Marker>, ghost before: seq<Line>)
    returns (allLines: seq<string>, allMarkers: seq<Marker>)
    requires lines == ShownLines(before) && markers == MarkersOf(before)
    ensures allLines == ShownLines(before + ListLines(readWhen))
    ensures allMarkers == MarkersOf(before + ListLines(readWhen))
  {
    allLines, allMarkers := lines, markers;
    ListBehind(before, readWhen);
    if readWhen.List? {
      var header := Plain("read_when:");
      HeaderShown(before, header);
      allLines, allMarkers := AppendItems(readWhen.items, lines + [header.text], markers, before + [header]);
    }
  }

  method BuildFrontmatterTemplate(front: Front) returns (template: string, markers: seq<Marker>)
    ensures template == JoinLines(ShownLines(LinesOf(front)))
    ensures markers == MarkersOf(LinesOf(front))
  {
    var texts := TextLines(front);
    var lines;
    lines, markers := AppendReadWhen(front.readWhen, ShownLines(texts), MarkersOf(texts), texts);
    template := JoinLines(lines);
  }
}
