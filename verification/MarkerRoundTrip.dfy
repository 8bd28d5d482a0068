/** Reading the marked values back from a template, and writing them into the front matter. */
module MarkerRoundTrip {
  import opened Text
  import opened FrontMatter
  import opened FrontMarkers

  datatype Extracted = Extracted(value: string) | MissingMarker(marker: string)

  function ExtractMarkerValue(text: string, start: string, end: string): Extracted {
    match IndexFrom(text, 0, start)
    case None => MissingMarker(start)
    case Some(i) =>
      match IndexFrom(text, i + |start|, end)
      case None => MissingMarker(end)
      case Some(j) => Extracted(text[i + |start|..j])
  }

  // ---------------------------------------------------------------- rows of a joined text

  /** Where the k-th row starts. */
  function Offset(rows: seq<string>, k: nat): nat
    requires k <= |rows|
  {
    if k == 0 then 0 else |rows[0]| + 1 + Offset(rows[1..], k - 1)
  }

  /** The row lies at a, up to a line break or the end of the text. */
  predicate RowAt(text: string, a: nat, row: string) {
    OccursAt(text, a, row) && (a + |row| == |text| || text[a + |row|] == '\n')
  }

  lemma {:induction false} RowLies(rows: seq<string>, k: nat)
    requires k < |rows|
    ensures RowAt(JoinLines(rows), Offset(rows, k), rows[k])
  {
    var text := JoinLines(rows);
    if k == 0 {
      assert text[0..|rows[0]|] == rows[0];
    } else {
      RowLies(rows[1..], k - 1);
      var head, tail, a := rows[0] + "\n", JoinLines(rows[1..]), Offset(rows[1..], k - 1);
      assert text == head + tail;
    }
  }

  /** Every position before row k lies in an earlier row or on the line break behind it. */
  lemma {:induction false} EarlierRow(rows: seq<string>, k: nat, i: nat) returns (j: nat)
    requires k < |rows| && i < Offset(rows, k)
    ensures j < k && Offset(rows, j) <= i <= Offset(rows, j) + |rows[j]|
  {
    if i <= |rows[0]| {
      j := 0;
    } else {
      j := EarlierRow(rows[1..], k - 1, i - |rows[0]| - 1);
      j := j + 1;
    }
  }

  lemma InRow(text: string, a: nat, row: string, i: nat, token: string)
    requires RowAt(text, a, row) && IsToken(token) && OccursAt(text, i, token) && a <= i <= a + |row|
    ensures OccursAt(row, i - a, token)
  {
    var end := a + |row|;
    assert i + |token| <= end by {
      if end < i + |token| { OccursChar(text, i, token, end - i); }
    }
    SliceSlice(text, a, end, i - a, i - a + |token|);
  }

  // ---------------------------------------------------------------- tokens in a marked line

  lemma NotShorter(text: string, i: nat, t: string, u: string)
    requires IsToken(t) && IsToken(u) && OccursAt(text, i, t) && OccursAt(text, i, u)
    ensures |t| >= |u|
  {
    OccursChar(text, i, t, |t| - 3);
    forall j: nat | j < |u| ensures text[i + j] == u[j] { OccursChar(text, i, u, j); }
    assert |t| - 3 < |u| ==> text[i + (|t| - 3)] == u[|t| - 3];
  }

  lemma SameToken(text: string, i: nat, t: string, u: string)
    requires IsToken(t) && IsToken(u) && OccursAt(text, i, t) && OccursAt(text, i, u)
    ensures t == u
  {
    NotShorter(text, i, t, u);
    NotShorter(text, i, u, t);
  }

  /** Two tokens never overlap. */
  lemma TokensApart(text: string, i: nat, t: string, k: nat, u: string)
    requires IsToken(t) && IsToken(u) && OccursAt(text, i, t) && OccursAt(text, k, u) && i < k
    ensures i + |t| <= k
  {
    if k < i + |t| {
      OccursChar(text, k, u, 0);
      OccursChar(text, k, u, 1);
      OccursChar(text, k, u, 2);
      OccursChar(text, i, t, k - i);
      OccursChar(text, i, t, k - i + 2);
    }
  }

  predicate IsMarkedLine(line: Line) {
    line.Marked? && IsToken(line.marker.start) && IsToken(line.marker.end) && '[' !in line.prefix
  }

  function StartAt(line: Line): nat
    requires line.Marked?
  {
    |line.prefix|
  }

  function ValueAt(line: Line): nat
    requires line.Marked?
  {
    |line.prefix| + |line.marker.start|
  }

  function EndAt(line: Line): nat
    requires line.Marked?
  {
    ValueAt(line) + |line.value|
  }

  /** The parts of a marked line lie in the text, the line starting at a. */
  predicate PartsLie(line: Line, text: string, a: nat) {
    && line.Marked?
    && OccursAt(text, a + StartAt(line), line.marker.start)
    && OccursAt(text, a + ValueAt(line), line.value)
    && OccursAt(text, a + EndAt(line), line.marker.end)
  }

  /** What a line looks like in the template, part by part. */
  ghost predicate ShownAs(line: Line, row: string) {
    match line
    case Plain(text) => row == text
    case Marked(prefix, marker, value) =>
      && PartsLie(line, row, 0) && |row| == EndAt(line) + |marker.end|
      && ('[' !in prefix ==> forall i :: 0 <= i < StartAt(line) ==> row[i] != '[')
  }

  lemma LineIsShown(line: Line, row: string)
    requires row == Shown(line)
    ensures ShownAs(line, row)
  {
    if line.Marked? {
      assert forall i :: 0 <= i < |line.prefix| ==> line.prefix[i] in line.prefix;
    }
  }

  /** A token in a marked line is one of its two markers in their places, or lies within the value. */
  lemma TokenInMarked(line: Line, row: string, i: nat, token: string)
    requires IsMarkedLine(line) && ShownAs(line, row) && IsToken(token) && OccursAt(row, i, token)
    ensures || (i == StartAt(line) && token == line.marker.start)
            || (i == EndAt(line) && token == line.marker.end)
            || (ValueAt(line) <= i && i + |token| <= EndAt(line) && OccursAt(line.value, i - ValueAt(line), token))
  {
    OccursChar(row, i, token, 0);
    if i == StartAt(line) {
      SameToken(row, i, token, line.marker.start);
    } else if StartAt(line) < i < EndAt(line) {
      TokensApart(row, StartAt(line), line.marker.start, i, token);
      TokensApart(row, i, token, EndAt(line), line.marker.end);
      SliceSlice(row, ValueAt(line), EndAt(line), i - ValueAt(line), i - ValueAt(line) + |token|);
    } else if i == EndAt(line) {
      SameToken(row, i, token, line.marker.end);
    } else if i > EndAt(line) {
      TokensApart(row, EndAt(line), line.marker.end, i, token);
    }
  }

  // ---------------------------------------------------------------- when a marker finds its own value

  /** The markers are tokens, and no start marker occurs twice or as an end marker. */
  ghost predicate WellMarked(lines: seq<Line>) {
    && (forall k :: 0 <= k < |lines| && lines[k].Marked? ==> IsMarkedLine(lines[k]))
    && (forall j, k :: 0 <= j < |lines| && 0 <= k < |lines| && lines[j].Marked? && lines[k].Marked?
          ==> (j != k ==> lines[j].marker.start != lines[k].marker.start)
              && lines[j].marker.end != lines[k].marker.start)
  }

  function TemplateText(lines: seq<Line>): string { JoinLines(ShownLines(lines)) }

  /** Position i lies in an earlier row, or on the line break behind it. */
  ghost predicate InEarlierRow(rows: seq<string>, at: seq<nat>, k: nat, i: nat)
    requires |at| == |rows|
  {
    exists j :: 0 <= j < k && j < |rows| && at[j] <= i <= at[j] + |rows[j]|
  }

  /** The lines lie in the text as rows, row k at position at[k], one after the other and with nothing in between. */
  ghost predicate Laid(lines: seq<Line>, rows: seq<string>, text: string, at: seq<nat>) {
    && |at| == |rows| == |lines|
    && (forall k :: 0 <= k < |rows| ==> ShownAs(lines[k], rows[k]))
    && (forall k :: 0 <= k < |rows| ==> RowAt(text, at[k], rows[k]))
    && (forall j, k :: 0 <= j < k < |rows| ==> at[j] + |rows[j]| < at[k])
    && (forall k: nat, i: nat :: k < |rows| && i < at[k] ==> InEarlierRow(rows, at, k, i))
  }

  lemma {:induction false} OffsetsGrow(rows: seq<string>, j: nat, k: nat)
    requires j < k <= |rows|
    ensures Offset(rows, j) + |rows[j]| + 1 <= Offset(rows, k)
  {
    if j > 0 { OffsetsGrow(rows[1..], j - 1, k - 1); }
  }

  lemma TemplateIsLaid(lines: seq<Line>) returns (at: seq<nat>)
    ensures Laid(lines, ShownLines(lines), TemplateText(lines), at)
  {
    var rows := ShownLines(lines);
    at := seq(|lines|, k requires 0 <= k < |lines| => Offset(rows, k));
    forall k: nat | k < |rows| ensures ShownAs(lines[k], rows[k]) { LineIsShown(lines[k], rows[k]); }
    RowsAreLaid(rows, TemplateText(lines), at);
  }

  lemma RowsAreLaid(rows: seq<string>, text: string, at: seq<nat>)
    requires text == JoinLines(rows) && |at| == |rows| && forall k :: 0 <= k < |rows| ==> at[k] == Offset(rows, k)
    ensures forall k :: 0 <= k < |rows| ==> RowAt(text, at[k], rows[k])
    ensures forall j, k :: 0 <= j < k < |rows| ==> at[j] + |rows[j]| < at[k]
    ensures forall k: nat, i: nat :: k < |rows| && i < at[k] ==> InEarlierRow(rows, at, k, i)
  {
    forall k: nat | k < |rows| ensures RowAt(text, at[k], rows[k]) { RowLies(rows, k); }
    forall j: nat, k: nat | j < k < |rows| ensures at[j] + |rows[j]| < at[k] { OffsetsGrow(rows, j, k); }
    forall k: nat, i: nat | k < |rows| && i < at[k] ensures InEarlierRow(rows, at, k, i) {
      var j := EarlierRow(rows, k, i);
      assert at[j] <= i <= at[j] + |rows[j]|;
    }
  }

  /** A start marker turns up in another line only within that line's own text. */
  lemma StartElsewhere(line: Line, row: string, i: nat, token: string)
    requires ShownAs(line, row) && IsToken(token) && OccursAt(row, i, token)
    requires line.Marked? ==> IsMarkedLine(line) && line.marker.start != token && line.marker.end != token
    ensures Contains(FreeText(line), token)
  {
    if line.Marked? {
      TokenInMarked(line, row, i, token);
      assert OccursAt(line.value, i - ValueAt(line), token);
    } else {
      assert OccursAt(line.text, i, token);
    }
  }

  lemma FreeTextLies(line: Line, row: string) returns (i: nat)
    requires ShownAs(line, row)
    ensures OccursAt(row, i, FreeText(line))
  {
    i := if line.Marked? then ValueAt(line) else 0;
    assert line.Plain? ==> row[0..|line.text|] == line.text;
  }

  /** No text of an earlier line holds the start marker of line k. */
  ghost predicate StartUnspoilt(lines: seq<Line>, k: nat)
    requires k < |lines| && lines[k].Marked?
  {
    forall j :: 0 <= j < k ==> !Contains(FreeText(lines[j]), lines[k].marker.start)
  }

  /** A token before row k lies in an earlier row. */
  lemma EarlierPlace(rows: seq<string>, text: string, at: seq<nat>, k: nat, i: nat, token: string) returns (j: nat)
    requires |at| == |rows| && k < |rows| && InEarlierRow(rows, at, k, i) && IsToken(token) && OccursAt(text, i, token)
    requires forall k :: 0 <= k < |rows| ==> RowAt(text, at[k], rows[k])
    ensures j < k && at[j] <= i && OccursAt(rows[j], i - at[j], token)
  {
    j :| j < k && at[j] <= i <= at[j] + |rows[j]|;
    InRow(text, at[j], rows[j], i, token);
  }

  lemma NoEarlierStart(lines: seq<Line>, rows: seq<string>, k: nat, text: string, at: seq<nat>, i: nat)
    requires WellMarked(lines) && Laid(lines, rows, text, at) && k < |lines| && lines[k].Marked?
           && StartUnspoilt(lines, k)
    requires i < at[k] + StartAt(lines[k])
    ensures !OccursAt(text, i, lines[k].marker.start)
  {
    var start := lines[k].marker.start;
    if OccursAt(text, i, start) {
      if i < at[k] {
        var j := EarlierPlace(rows, text, at, k, i, start);
        StartElsewhere(lines[j], rows[j], i - at[j], start);
      } else {
        InRow(text, at[k], rows[k], i, start);
        TokenInMarked(lines[k], rows[k], i - at[k], start);
      }
    }
  }

  lemma FreeTextHolds(line: Line, row: string, text: string, a: nat, token: string) returns (i: nat)
    requires ShownAs(line, row) && OccursAt(text, a, row) && Contains(FreeText(line), token)
    ensures i <= a + |row| && OccursAt(text, i, token)
  {
    var m := FreeTextLies(line, row);
    var p: nat :| OccursAt(FreeText(line), p, token);
    OccursTrans(row, m, FreeText(line), p, token);
    OccursTrans(text, a, row, m + p, token);
    i := a + m + p;
  }

  lemma EarlierStart(lines: seq<Line>, rows: seq<string>, k: nat, text: string, at: seq<nat>, j: nat) returns (i: nat)
    requires Laid(lines, rows, text, at) && j < k < |lines| && lines[k].Marked?
    requires Contains(FreeText(lines[j]), lines[k].marker.start)
    ensures i < at[k] && OccursAt(text, i, lines[k].marker.start)
  {
    assert RowAt(text, at[j], rows[j]) && at[j] + |rows[j]| < at[k];
    i := FreeTextHolds(lines[j], rows[j], text, at[j], lines[k].marker.start);
  }

  lemma LineLies(line: Line, row: string, text: string, a: nat)
    requires line.Marked? && ShownAs(line, row) && OccursAt(text, a, row)
    ensures PartsLie(line, text, a)
  {
    OccursTrans(text, a, row, StartAt(line), line.marker.start);
    OccursTrans(text, a, row, ValueAt(line), line.value);
    OccursTrans(text, a, row, EndAt(line), line.marker.end);
  }

  /** The first occurrence of the start marker is the one before the value. */
  ghost predicate FindsStart(line: Line, text: string, a: nat)
    requires line.Marked?
  {
    FirstAt(text, 0, line.marker.start, a + StartAt(line))
  }

  /** The first occurrence of the end marker from the value on is the one behind it. */
  ghost predicate FindsEnd(line: Line, text: string, a: nat)
    requires line.Marked?
  {
    FirstAt(text, a + ValueAt(line), line.marker.end, a + EndAt(line))
  }

  lemma StartFoundIff(lines: seq<Line>, rows: seq<string>, k: nat, text: string, at: seq<nat>)
    requires WellMarked(lines) && Laid(lines, rows, text, at) && k < |lines| && lines[k].Marked?
    ensures FindsStart(lines[k], text, at[k]) <==> StartUnspoilt(lines, k)
  {
    var start := lines[k].marker.start;
    LineLies(lines[k], rows[k], text, at[k]);
    if StartUnspoilt(lines, k) {
      forall i: nat | i < at[k] + StartAt(lines[k]) ensures !OccursAt(text, i, start) {
        NoEarlierStart(lines, rows, k, text, at, i);
      }
    } else {
      var j :| 0 <= j < k && Contains(FreeText(lines[j]), start);
      var i := EarlierStart(lines, rows, k, text, at, j);
    }
  }

  lemma NoEarlierEnd(line: Line, row: string, text: string, a: nat, i: nat)
    requires IsMarkedLine(line) && ShownAs(line, row) && RowAt(text, a, row) && !Contains(line.value, line.marker.end)
    requires a + ValueAt(line) <= i < a + EndAt(line)
    ensures !OccursAt(text, i, line.marker.end)
  {
    if OccursAt(text, i, line.marker.end) {
      InRow(text, a, row, i, line.marker.end);
      TokenInMarked(line, row, i - a, line.marker.end);
    }
  }

  lemma EarlierEnd(line: Line, text: string, a: nat) returns (i: nat)
    requires PartsLie(line, text, a) && line.marker.end != "" && Contains(line.value, line.marker.end)
    ensures a + ValueAt(line) <= i < a + EndAt(line)
    ensures OccursAt(text, i, line.marker.end)
  {
    var p: nat :| OccursAt(line.value, p, line.marker.end);
    OccursTrans(text, a + ValueAt(line), line.value, p, line.marker.end);
    i := a + ValueAt(line) + p;
  }

  lemma EndFound(line: Line, row: string, text: string, a: nat)
    requires IsMarkedLine(line) && ShownAs(line, row) && RowAt(text, a, row) && !Contains(line.value, line.marker.end)
    requires OccursAt(text, a + EndAt(line), line.marker.end)
    ensures FindsEnd(line, text, a)
  {
    forall i: nat | a + ValueAt(line) <= i < a + EndAt(line) ensures !OccursAt(text, i, line.marker.end) {
      NoEarlierEnd(line, row, text, a, i);
    }
  }

  lemma EndFoundIff(line: Line, row: string, text: string, a: nat)
    requires IsMarkedLine(line) && ShownAs(line, row) && RowAt(text, a, row)
    ensures FindsEnd(line, text, a) <==> !Contains(line.value, line.marker.end)
  {
    LineLies(line, row, text, a);
    if Contains(line.value, line.marker.end) {
      var i := EarlierEnd(line, text, a);
    } else {
      EndFound(line, row, text, a);
    }
  }

  /** The value of line k is unspoilt: no earlier text holds its start marker, and it does not hold its end marker. */
  ghost predicate Unspoilt(lines: seq<Line>, k: nat)
    requires k < |lines| && lines[k].Marked?
  {
    StartUnspoilt(lines, k) && !Contains(lines[k].value, lines[k].marker.end)
  }

  /** Extraction stops at the marker's own places exactly when the value is unspoilt. */
  lemma MarkerFindsItsOwnIff(lines: seq<Line>, rows: seq<string>, k: nat, text: string, at: seq<nat>)
    requires WellMarked(lines) && Laid(lines, rows, text, at) && k < |lines| && lines[k].Marked?
    ensures FindsStart(lines[k], text, at[k]) && FindsEnd(lines[k], text, at[k]) <==> Unspoilt(lines, k)
  {
    StartFoundIff(lines, rows, k, text, at);
    EndFoundIff(lines[k], rows[k], text, at[k]);
  }

  lemma FoundIsExtracted(line: Line, text: string, a: nat)
    requires PartsLie(line, text, a) && FindsStart(line, text, a) && FindsEnd(line, text, a)
    ensures ExtractMarkerValue(text, line.marker.start, line.marker.end) == Extracted(line.value)
  {}

  /** An unspoilt value is what extraction returns. */
  lemma UnspoiltIsExtracted(lines: seq<Line>, rows: seq<string>, k: nat, text: string, at: seq<nat>)
    requires WellMarked(lines) && Laid(lines, rows, text, at) && k < |lines| && lines[k].Marked? && Unspoilt(lines, k)
    ensures ExtractMarkerValue(text, lines[k].marker.start, lines[k].marker.end) == Extracted(lines[k].value)
  {
    MarkerFindsItsOwnIff(lines, rows, k, text, at);
    LineLies(lines[k], rows[k], text, at[k]);
    FoundIsExtracted(lines[k], text, at[k]);
  }
}
