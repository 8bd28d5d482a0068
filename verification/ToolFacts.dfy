/** Which locations a visited value tells of, stated on its fields and its lines alone. */
module ToolFacts {
  import opened Text
  import opened LocationMaps
  import opened BudgetedWalk
  import opened ToolLocations

  // ---------------------------------------------------------------- accepted paths

  /** The text begins with the scheme, in capitals or not. */
  predicate HasScheme(text: string, scheme: string) {
    |scheme| <= |text| && forall i :: 0 <= i < |scheme| ==> SameLetter(text[i], scheme[i])
  }

  predicate SameLetter(c: char, small: char) {
    c == small || ('a' <= small <= 'z' && c as int + 32 == small as int)
  }

  /** Trimmed, not empty, of at most 4096 units, without NUL or line break, and no web address. */
  predicate IsPathText(text: string) {
    && JsTrimmed(text) && 0 < |text| <= 4096 && !HasScheme(text, "http://") && !HasScheme(text, "https://")
    && forall c :: c in text ==> c != '\0' && c != '\r' && c != '\n'
  }

  /** The text is a path, or a file address that stands for one. */
  ghost predicate Names(w: World, text: string, p: string) {
    IsPathText(text) && if HasScheme(text, "file://") then w.decodeFileUrl(text) == Some(p) && p != "" else p == text
  }

  /** The raw text names the path between white space. */
  ghost predicate Accepts(w: World, raw: string, p: string) {
    exists left, text, right :: raw == left + text + right && IsJsBlank(left) && IsJsBlank(right) && Names(w, text, p)
  }

  lemma SchemeIff(text: string, scheme: string)
    requires forall i :: 0 <= i < |scheme| ==> !('A' <= scheme[i] <= 'Z')
    ensures HasPrefixIgnoringCase(text, scheme) <==> HasScheme(text, scheme)
  {
    forall i | 0 <= i < |scheme| && i < |text|
      ensures Lower(text[i]) == scheme[i] <==> SameLetter(text[i], scheme[i]) {}
  }

  lemma NormalizedIff(w: World, raw: string, p: string)
    ensures NormalizePath(w.decodeFileUrl, raw) == Some(p) <==> Names(w, JsTrim(raw), p)
  {
    JsTrimIsTrimmed(raw);
    SchemeIff(JsTrim(raw), "http://");
    SchemeIff(JsTrim(raw), "https://");
    SchemeIff(JsTrim(raw), "file://");
  }

  lemma AcceptedIff(w: World, raw: string, p: string)
    ensures NormalizePath(w.decodeFileUrl, raw) == Some(p) <==> Accepts(w, raw, p)
  {
    NormalizedIff(w, raw, p);
    if Names(w, JsTrim(raw), p) { var left, right := JsTrimParts(raw); }
    if Accepts(w, raw, p) {
      var left, text, right :| raw == left + text + right && IsJsBlank(left) && IsJsBlank(right) && Names(w, text, p);
      JsTrimOf(left, text, right);
    }
  }

  lemma RawFactsIff(w: World, raw: string, line: Option<nat>, l: Location)
    ensures l in RawFacts(w, raw, line) <==> Accepts(w, raw, l.path) && l.line == line
  {
    AcceptedIff(w, raw, l.path);
  }

  // ---------------------------------------------------------------- fields of a record

  /** No key twice, as in every object. */
  predicate UniqueNames(fields: seq<(string, Value)>) {
    forall i, k :: 0 <= i < k < |fields| ==> fields[i].0 != fields[k].0
  }

  lemma {:induction false} FieldIff(fields: seq<(string, Value)>, key: string, v: Value)
    requires UniqueNames(fields)
    ensures (key, v) in fields ==> Field(fields, key) == v
    ensures Field(fields, key) == v ==> (key, v) in fields || v == Other
  {
    if fields != [] {
      assert forall i :: 1 <= i < |fields| ==> fields[i].0 != fields[0].0;
      FieldIff(fields[1..], key, v);
    }
  }

  /** The value is a number whose floor n is positive. */
  predicate IsLineNumber(v: Value, n: nat) { v.Number? && n > 0 && n as real <= v.number < (n + 1) as real }

  predicate HasLineNumber(fields: seq<(string, Value)>, key: string) {
    Field(fields, key).Number? && Field(fields, key).number >= 1.0
  }

  /** The line of a record: that of the first key with a line number. */
  ghost predicate IsLineOf(fields: seq<(string, Value)>, keys: seq<string>, line: Option<nat>) {
    if line.None? then forall k :: 0 <= k < |keys| ==> !HasLineNumber(fields, keys[k])
    else exists k :: 0 <= k < |keys| && IsLineNumber(Field(fields, keys[k]), line.value)
                     && forall j :: 0 <= j < k ==> !HasLineNumber(fields, keys[j])
  }

  lemma LineNumberIff(v: Value, n: nat)
    ensures NormalizeLine(v) == Some(n) <==> IsLineNumber(v, n)
    ensures NormalizeLine(v).Some? <==> v.Number? && v.number >= 1.0
  {}

  lemma {:induction false} LineIsRight(fields: seq<(string, Value)>, keys: seq<string>)
    ensures IsLineOf(fields, keys, LineOf(fields, keys))
  {
    if keys != [] {
      LineIsRight(fields, keys[1..]);
      var line := LineOf(fields, keys);
      var v := Field(fields, keys[0]);
      if NormalizeLine(v).Some? {
        LineNumberIff(v, NormalizeLine(v).value);
      } else if line.Some? {
        LineNumberIff(v, 0);
        var k :| 0 <= k < |keys[1..]| && IsLineNumber(Field(fields, keys[1..][k]), line.value)
                 && forall j :: 0 <= j < k ==> !HasLineNumber(fields, keys[1..][j]);
        assert keys[1..][k] == keys[k + 1];
        forall j | 0 <= j < k + 1 ensures !HasLineNumber(fields, keys[j]) {
          if j > 0 { assert keys[j] == keys[1..][j - 1]; }
        }
      } else {
        LineNumberIff(v, 0);
        forall k | 0 <= k < |keys| ensures !HasLineNumber(fields, keys[k]) {
          if k > 0 { assert keys[k] == keys[1..][k - 1]; }
        }
      }
    }
  }

  predicate InBothSpellings(stem: string) { stem + "Path" in PATH_KEYS && stem + "_path" in PATH_KEYS }

  lemma BothSpellings(stem: string, camel: string, snake: string, k: nat)
    requires k + 1 < |PATH_KEYS| && PATH_KEYS[k] == camel && PATH_KEYS[k + 1] == snake
    requires camel == stem + "Path" && snake == stem + "_path"
    ensures InBothSpellings(stem)
  {
    assert camel in PATH_KEYS && snake in PATH_KEYS;
  }

  lemma FileKeys()
    ensures InBothSpellings("file")
  {
    BothSpellings("file", "filePath", "file_path", 1);
  }

  lemma TargetKeys()
    ensures InBothSpellings("target")
  {
    BothSpellings("target", "targetPath", "target_path", 3);
  }

  lemma SourceAndDestination()
    ensures InBothSpellings("source") && InBothSpellings("destination")
  {
    BothSpellings("source", "sourcePath", "source_path", 7);
    BothSpellings("destination", "destinationPath", "destination_path", 9);
  }

  lemma OldAndNew()
    ensures InBothSpellings("old") && InBothSpellings("new")
  {
    BothSpellings("old", "oldPath", "old_path", 11);
    BothSpellings("new", "newPath", "new_path", 13);
  }

  lemma OutputAndInput()
    ensures InBothSpellings("output") && InBothSpellings("input")
  {
    BothSpellings("output", "outputPath", "output_path", 15);
    BothSpellings("input", "inputPath", "input_path", 17);
  }

  lemma OtherPathKeys()
    ensures |PATH_KEYS| == 19 && "path" in PATH_KEYS && "targetFile" in PATH_KEYS && "target_file" in PATH_KEYS
  {
    assert PATH_KEYS[0] == "path" && PATH_KEYS[5] == "targetFile" && PATH_KEYS[6] == "target_file";
  }

  /** The nineteen path keys. */
  lemma KeysOfPaths()
    ensures |PATH_KEYS| == 19 && "path" in PATH_KEYS && "targetFile" in PATH_KEYS && "target_file" in PATH_KEYS
    ensures InBothSpellings("file") && InBothSpellings("target") && InBothSpellings("source")
    ensures InBothSpellings("destination") && InBothSpellings("old") && InBothSpellings("new")
    ensures InBothSpellings("output") && InBothSpellings("input")
  {
    OtherPathKeys();
    FileKeys();
    TargetKeys();
    SourceAndDestination();
    OldAndNew();
    OutputAndInput();
  }

  /** The line keys, in the order in which they are tried. */
  lemma KeysOfLines()
    ensures |LINE_KEYS| == 5 && LINE_KEYS[0] == "line" && LINE_KEYS[1] == "lineNumber" && LINE_KEYS[2] == "line_number"
    ensures LINE_KEYS[3] == "startLine" && LINE_KEYS[4] == "start_line"
  {}

  /** Some of the keys holds a raw text that names the path. */
  ghost predicate HasPath(w: World, fields: seq<(string, Value)>, keys: seq<string>, p: string) {
    exists key, raw :: key in keys && Field(fields, key) == Str(raw) && Accepts(w, raw, p)
  }

  lemma {:induction false} PathFactsIff(w: World, fields: seq<(string, Value)>, keys: seq<string>, line: Option<nat>,
                                        l: Location)
    ensures l in PathFacts(w, fields, keys, line) <==> HasPath(w, fields, keys, l.path) && l.line == line
  {
    if keys != [] {
      var before, last := keys[..|keys| - 1], keys[|keys| - 1];
      PathFactsIff(w, fields, before, line, l);
      assert keys == before + [last];
      var v := Field(fields, last);
      if v.Str? { RawFactsIff(w, v.text, line, l); }
      assert HasPath(w, fields, keys, l.path)
        <==> HasPath(w, fields, before, l.path) || (v.Str? && Accepts(w, v.text, l.path)) by {
        if HasPath(w, fields, keys, l.path) {
          var key, raw :| key in keys && Field(fields, key) == Str(raw) && Accepts(w, raw, l.path);
          assert key in before || key == last;
        }
        if v.Str? && Accepts(w, v.text, l.path) { assert last in keys && Field(fields, last) == Str(v.text); }
        if HasPath(w, fields, before, l.path) {
          var key, raw :| key in before && Field(fields, key) == Str(raw) && Accepts(w, raw, l.path);
          assert key in keys;
        }
      }
    }
  }

  // ---------------------------------------------------------------- marker lines

  /** The line ends of JavaScript. */
  lemma LineEndsAre(c: char)
    ensures IsLineEnd(c) <==> c in "\n\r\U{2028}\U{2029}"
  {}

  /** text[i..k] is a line of the text. */
  predicate IsLineAt(text: string, i: nat, k: nat) {
    && i <= k <= |text| && (i == 0 || IsLineEnd(text[i - 1])) && (k == |text| || IsLineEnd(text[k]))
    && forall j :: i <= j < k ==> !IsLineEnd(text[j])
  }

  /** The line is a marker with the path behind it, which is not blank. */
  ghost predicate IsMarker(line: string, path: string) {
    exists rest :: (line == "FILE:" + rest || line == "MEDIA:" + rest) && path == JsTrim(rest) && path != ""
  }

  lemma MarkerIff(line: string, path: string)
    ensures path in MarkerPath(line) <==> IsMarker(line, path)
  {
    if HasPrefix(line, "FILE:") {
      assert line == "FILE:" + line[5..];
    } else if HasPrefix(line, "MEDIA:") {
      assert line == "MEDIA:" + line[6..];
    }
    if IsMarker(line, path) {
      var rest :| (line == "FILE:" + rest || line == "MEDIA:" + rest) && path == JsTrim(rest) && path != "";
      MarkerRest(line, rest);
    }
  }

  lemma MarkerRest(line: string, rest: string)
    ensures line == "FILE:" + rest ==> HasPrefix(line, "FILE:") && line[5..] == rest
    ensures line == "MEDIA:" + rest ==> !HasPrefix(line, "FILE:") && HasPrefix(line, "MEDIA:") && line[6..] == rest
  {
    assert line == "MEDIA:" + rest ==> line[0] == 'M';
  }

  /** Some line of the text from position s on is a marker of the path. */
  ghost predicate HasMarker(text: string, s: nat, path: string) {
    exists i: nat, k: nat :: s <= i && IsLineAt(text, i, k) && IsMarker(text[i..k], path)
  }

  /** `s` is where the line begins that position i belongs to. */
  predicate LineBegins(text: string, s: nat, i: nat) {
    s <= i <= |text| && (s == 0 || IsLineEnd(text[s - 1])) && forall j :: s <= j < i ==> !IsLineEnd(text[j])
  }

  lemma LineEndsHere(text: string, s: nat, i: nat, path: string)
    requires LineBegins(text, s, i) && i < |text| && IsLineEnd(text[i])
    ensures HasMarker(text, s, path) <==> IsMarker(text[s..i], path) || HasMarker(text, i + 1, path)
  {
    if HasMarker(text, s, path) {
      var a: nat, b: nat :| s <= a && IsLineAt(text, a, b) && IsMarker(text[a..b], path);
      if a == s { assert b == i by { assert !(b < i) && !(i < b); } } else { assert !(s < a <= i); }
    }
    if IsMarker(text[s..i], path) { assert IsLineAt(text, s, i); }
  }

  lemma LastLineEnds(text: string, s: nat, path: string)
    requires LineBegins(text, s, |text|)
    ensures HasMarker(text, s, path) <==> IsMarker(text[s..], path)
  {
    assert text[s..|text|] == text[s..];
    if HasMarker(text, s, path) {
      var a: nat, b: nat :| s <= a && IsLineAt(text, a, b) && IsMarker(text[a..b], path);
      assert a == s && b == |text|;
    }
    if IsMarker(text[s..], path) { assert IsLineAt(text, s, |text|); }
  }

  lemma {:induction false} MarkersFrom(text: string, s: nat, i: nat, path: string)
    requires LineBegins(text, s, i)
    ensures path in MarkerPaths(text[i..], text[s..i]) <==> HasMarker(text, s, path)
    decreases |text| - i
  {
    if i == |text| {
      assert text[s..i] == text[s..];
      LastLineEnds(text, s, path);
      MarkerIff(text[s..], path);
    } else {
      assert text[i..][1..] == text[i + 1..];
      if IsLineEnd(text[i]) {
        assert text[i + 1..i + 1] == "";
        MarkersFrom(text, i + 1, i + 1, path);
        MarkerIff(text[s..i], path);
        LineEndsHere(text, s, i, path);
      } else {
        assert text[s..i] + [text[i]] == text[s..i + 1];
        MarkersFrom(text, s, i + 1, path);
      }
    }
  }

  /** The markers of a text are those of its lines. */
  lemma MarkersIff(text: string, path: string)
    ensures path in MarkerPaths(text, "") <==> HasMarker(text, 0, path)
  {
    assert text[0..] == text && text[0..0] == "";
    MarkersFrom(text, 0, 0, path);
  }

  /** A marker line of the text names the path. */
  ghost predicate MarksPath(w: World, text: string, p: string) {
    exists raw :: HasMarker(text, 0, raw) && Accepts(w, raw, p)
  }

  lemma {:induction false} RawsIff(w: World, raws: seq<string>, l: Location)
    ensures l in MarkerFacts(w, raws) <==> l.line == None && exists raw :: raw in raws && Accepts(w, raw, l.path)
  {
    if raws != [] {
      var before, last := raws[..|raws| - 1], raws[|raws| - 1];
      RawsIff(w, before, l);
      RawFactsIff(w, last, None, l);
      assert forall raw :: raw in raws <==> raw in before || raw == last;
    }
  }

  lemma MarkerFactsIff(w: World, text: string, l: Location)
    ensures l in MarkerFacts(w, MarkerPaths(text, "")) <==> l.line == None && MarksPath(w, text, l.path)
  {
    RawsIff(w, MarkerPaths(text, ""), l);
    forall raw ensures raw in MarkerPaths(text, "") <==> HasMarker(text, 0, raw) { MarkersIff(text, raw); }
  }

  // ---------------------------------------------------------------- records

  /** The block is a record of type text with this text. */
  predicate IsTextBlock(w: World, block: Value, text: string) {
    && block.Ref? && w.node(block.id).Record?
    && Field(w.node(block.id).fields, "type") == Str("text") && Field(w.node(block.id).fields, "text") == Str(text)
  }

  /** The block is one of the array that the record has as its content. */
  predicate IsContentBlock(w: World, fields: seq<(string, Value)>, block: Value) {
    var content := Field(fields, "content");
    content.Ref? && w.node(content.id).Array? && block in w.node(content.id).items
  }

  ghost predicate SomeBlockMarks(w: World, blocks: seq<Value>, p: string) {
    exists block, text :: block in blocks && IsTextBlock(w, block, text) && MarksPath(w, text, p)
  }

  lemma {:induction false} ContentFactsIff(w: World, blocks: seq<Value>, l: Location)
    ensures l in ContentFacts(w, blocks) <==> l.line == None && SomeBlockMarks(w, blocks, l.path)
  {
    if blocks != [] {
      var before, last := blocks[..|blocks| - 1], blocks[|blocks| - 1];
      ContentFactsIff(w, before, l);
      LastBlockIff(w, blocks, l);
      assert forall block :: block in blocks <==> block in before || block == last;
    }
  }

  lemma LastBlockIff(w: World, blocks: seq<Value>, l: Location)
    requires blocks != []
    ensures var text := BlockText(w, blocks[|blocks| - 1]);
            (text.Some? && l in MarkerFacts(w, MarkerPaths(text.value, "")))
            <==> l.line == None && SomeBlockMarks(w, [blocks[|blocks| - 1]], l.path)
  {
    var block := blocks[|blocks| - 1];
    var text := BlockText(w, block);
    assert forall t :: IsTextBlock(w, block, t) <==> text == Some(t);
    if text.Some? {
      MarkerFactsIff(w, text.value, l);
      if MarksPath(w, text.value, l.path) { assert block in [block] && IsTextBlock(w, block, text.value); }
    }
  }

  /** The record has the path under a path key, with its line, or a marker for it in a content block. */
  ghost predicate RecordTells(w: World, fields: seq<(string, Value)>, l: Location) {
    || (HasPath(w, fields, PATH_KEYS, l.path) && IsLineOf(fields, LINE_KEYS, l.line))
    || (l.line == None && BlockMarks(w, fields, l.path))
  }

  ghost predicate BlockMarks(w: World, fields: seq<(string, Value)>, p: string) {
    exists block, text :: IsContentBlock(w, fields, block) && IsTextBlock(w, block, text) && MarksPath(w, text, p)
  }

  /** A value tells of the markers of its text, a record of its paths. */
  ghost predicate Tells(w: World, v: Value, l: Location) {
    || (v.Str? && l.line == None && MarksPath(w, v.text, l.path))
    || (v.Ref? && w.node(v.id).Record? && RecordTells(w, w.node(v.id).fields, l))
  }

  lemma BlocksIff(w: World, fields: seq<(string, Value)>, p: string)
    ensures SomeBlockMarks(w, ContentBlocks(w, fields), p) <==> BlockMarks(w, fields, p)
  {
    assert forall block :: block in ContentBlocks(w, fields) <==> IsContentBlock(w, fields, block);
  }

  lemma OneLine(fields: seq<(string, Value)>, keys: seq<string>, line: Option<nat>, other: Option<nat>)
    requires IsLineOf(fields, keys, line) && IsLineOf(fields, keys, other) && line.Some?
    ensures line == other
  {
    if line.Some? {
      var k :| 0 <= k < |keys| && IsLineNumber(Field(fields, keys[k]), line.value)
               && forall j :: 0 <= j < k ==> !HasLineNumber(fields, keys[j]);
      assert HasLineNumber(fields, keys[k]);
      if other.Some? {
        var m :| 0 <= m < |keys| && IsLineNumber(Field(fields, keys[m]), other.value)
                 && forall j :: 0 <= j < m ==> !HasLineNumber(fields, keys[j]);
        assert HasLineNumber(fields, keys[m]);
        assert k == m;
      }
    }
  }

  lemma RecordFactsIff(w: World, fields: seq<(string, Value)>, l: Location)
    ensures l in RecordFacts(w, fields) <==> RecordTells(w, fields, l)
  {
    var line := LineOf(fields, LINE_KEYS);
    LineIsRight(fields, LINE_KEYS);
    if IsLineOf(fields, LINE_KEYS, l.line) {
      if line.Some? { OneLine(fields, LINE_KEYS, line, l.line); }
      if l.line.Some? { OneLine(fields, LINE_KEYS, l.line, line); }
    }
    PathFactsIff(w, fields, PATH_KEYS, line, l);
    ContentFactsIff(w, ContentBlocks(w, fields), l);
    BlocksIff(w, fields, l.path);
  }

  /** The facts of a visited value are the locations that it tells of. */
  lemma FactsIff(w: World, v: Value, l: Location)
    ensures l in FactsOf(w, v) <==> Tells(w, v, l)
  {
    match v
    case Str(text) => MarkerFactsIff(w, text, l);
    case Number(_) =>
    case Other =>
    case Ref(id) =>
      match w.node(id)
      case Array(_) =>
      case Record(fields) => RecordFactsIff(w, fields, l);
  }

  // ---------------------------------------------------------------- the walk

  /** The walk goes down into the items of an array and the fields of a record, but for its content. */
  lemma ChildrenIff(w: World, v: Value, c: Value)
    ensures c in Children(w, v)
       <==> && v.Ref?
            && match w.node(v.id)
               case Array(items) => c in items
               case Record(fields) => exists key :: key != "content" && (key, c) in fields
  {
    if v.Ref? && w.node(v.id).Record? { FieldValuesIff(w.node(v.id).fields, c); }
  }

  lemma {:induction false} FieldValuesIff(fields: seq<(string, Value)>, c: Value)
    ensures c in FieldValues(fields) <==> exists key :: key != "content" && (key, c) in fields
  {
    if fields != [] {
      var before, last := fields[..|fields| - 1], fields[|fields| - 1];
      FieldValuesIff(before, c);
      assert forall key :: (key, c) in fields <==> (key, c) in before || (key, c) == last;
    }
  }

  /** The values are those of the fields at the places `ks`. */
  ghost predicate TakenAt(fields: seq<(string, Value)>, ks: seq<nat>, values: seq<Value>) {
    && |ks| == |values| && (forall i, j :: 0 <= i < j < |ks| ==> ks[i] < ks[j])
    && forall i :: 0 <= i < |ks| ==> ks[i] < |fields| && values[i] == fields[ks[i]].1
  }

  lemma TakenNext(fields: seq<(string, Value)>, ks: seq<nat>, values: seq<Value>, n: nat)
    requires TakenAt(fields, ks, values) && n < |fields| && forall k: nat :: k in ks ==> k < n
    ensures TakenAt(fields, ks + [n], values + [fields[n].1])
  {
    assert forall i :: 0 <= i < |ks| ==> ks[i] in ks;
  }

  /** And in the order of the fields. */
  lemma {:induction false} FieldValuesInOrder(fields: seq<(string, Value)>, n: nat) returns (ks: seq<nat>)
    requires n <= |fields|
    ensures TakenAt(fields, ks, FieldValues(fields[..n]))
    ensures forall k: nat :: k in ks <==> k < n && fields[k].0 != "content"
  {
    ks := [];
    if n > 0 {
      ks := FieldValuesInOrder(fields, n - 1);
      FieldValuesNext(fields, n - 1);
      if fields[n - 1].0 != "content" {
        TakenNext(fields, ks, FieldValues(fields[..n - 1]), n - 1);
        ks := ks + [n - 1];
      }
    }
  }

  /** One of the first hundred values in the pre-order of an argument tells of the location. */
  ghost predicate Told(w: World, values: seq<Value>, l: Location) {
    exists v, u :: v in values && u in BudgetedVisits(GraphOf(w), v) && Tells(w, u, l)
  }

  lemma BudgetedFactsIff(w: World, v: Value, l: Location)
    ensures l in BudgetedFacts(GraphOf(w), v) <==> exists u :: u in BudgetedVisits(GraphOf(w), v) && Tells(w, u, l)
  {
    var g := GraphOf(w);
    AllFactsMember(g, BudgetedVisits(g, v), l);
    forall u ensures l in g.facts(u) <==> Tells(w, u, l) { FactsIff(w, u, l); }
  }

  /** The facts of all arguments are the locations that a visited value tells of. */
  lemma {:induction false} AllBudgetedFactsIff(w: World, values: seq<Value>, l: Location)
    ensures l in AllBudgetedFacts(w, values) <==> Told(w, values, l)
  {
    if values != [] {
      var before, last := values[..|values| - 1], values[|values| - 1];
      AllBudgetedFactsIff(w, before, l);
      BudgetedFactsIff(w, last, l);
      assert forall v :: v in values <==> v in before || v == last;
    }
  }

  /**
   The set of locations reported for a tool call: those that visited values tell of, a path without a line only if
   none tells of it with a line.
   */
  lemma ReportedIff(w: World, values: seq<Value>, l: Location)
    ensures l in Canonical((set m | m in AllBudgetedFacts(w, values)))
       <==> && Told(w, values, l)
            && (l.line.Some? || forall m :: Told(w, values, m) && m.path == l.path ==> m.line == None)
    ensures AllBudgetedFacts(w, values) == [] <==> forall m :: !Told(w, values, m)
  {
    var facts := AllBudgetedFacts(w, values);
    forall m ensures m in facts <==> Told(w, values, m) { AllBudgetedFactsIff(w, values, m); }
    assert facts != [] ==> facts[0] in facts;
  }
}
