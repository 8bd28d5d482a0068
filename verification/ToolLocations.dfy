/**
 File locations of a tool call, gathered by a budgeted, depth-limited walk over an arbitrary,
 possibly cyclic, JavaScript value.
 */
module ToolLocations {
  import opened Text
  import opened LocationMaps
  import opened BudgetedWalk

  // ---------------------------------------------------------------- values and what a node tells

  /** A JavaScript value; objects are references into a graph that may be cyclic. */
  datatype Value = Str(text: string) | Number(number: real) | Other | Ref(id: nat)

  datatype Node = Array(items: seq<Value>) | Record(fields: seq<(string, Value)>)

  /** The graph, and the platform's decoding of file URLs. */
  datatype World = World(node: nat -> Node, decodeFileUrl: string -> Option<string>)

  const PATH_KEYS := [
    "path", "filePath", "file_path", "targetPath", "target_path", "targetFile", "target_file",
    "sourcePath", "source_path", "destinationPath", "destination_path", "oldPath", "old_path",
    "newPath", "new_path", "outputPath", "output_path", "inputPath", "input_path"]

  const LINE_KEYS := ["line", "lineNumber", "line_number", "startLine", "start_line"]

  /** `record[key]`, where an absent key reads as some other value. */
  function Field(fields: seq<(string, Value)>, key: string): Value {
    if fields == [] then Other else if fields[0].0 == key then fields[0].1 else Field(fields[1..], key)
  }

  function Lower(c: char): char {
    if 'A' <= c <= 'Z' then (c as int + 32) as char else c
  }

  predicate HasPrefixIgnoringCase(text: string, prefix: string) {
    |prefix| <= |text| && forall i :: 0 <= i < |prefix| ==> Lower(text[i]) == prefix[i]
  }

  function NormalizePath(decodeFileUrl: string -> Option<string>, raw: string): Option<string> {
    var trimmed := JsTrim(raw);
    if trimmed == "" || |trimmed| > 4096 || '\0' in trimmed || '\r' in trimmed || '\n' in trimmed then None
    else if HasPrefixIgnoringCase(trimmed, "http://") || HasPrefixIgnoringCase(trimmed, "https://") then None
    else if HasPrefixIgnoringCase(trimmed, "file://") then
      (if decodeFileUrl(trimmed) == Some("") then None else decodeFileUrl(trimmed))
    else Some(trimmed)
  }

  function NormalizeLine(v: Value): (line: Option<nat>)
    ensures line.Some? ==> line.value > 0
  {
    if v.Number? && v.number.Floor > 0 then Some(v.number.Floor) else None
  }

  function LineOf(fields: seq<(string, Value)>, keys: seq<string>): Option<nat> {
    if keys == [] then None
    else if NormalizeLine(Field(fields, keys[0])).Some? then NormalizeLine(Field(fields, keys[0]))
    else LineOf(fields, keys[1..])
  }

  predicate IsLineEnd(c: char) { c == '\n' || c == '\r' || c as int == 0x2028 || c as int == 0x2029 }

  /** The raw path of one line of text, if it is a FILE: or MEDIA: marker. */
  function MarkerPath(line: string): seq<string> {
    var rest := if HasPrefix(line, "FILE:") then line[5..] else if HasPrefix(line, "MEDIA:") then line[6..] else "";
    if JsTrim(rest) == "" then [] else [JsTrim(rest)]
  }

  /** The raw paths of all marker lines; `line` is the line read so far. */
  function MarkerPaths(text: string, line: string): seq<string> {
    if text == "" then MarkerPath(line)
    else if IsLineEnd(text[0]) then MarkerPath(line) + MarkerPaths(text[1..], "")
    else MarkerPaths(text[1..], line + [text[0]])
  }

  /** The facts that adding one raw path amounts to: none if the path is refused. */
  function RawFacts(w: World, raw: string, line: Option<nat>): (facts: seq<Location>)
    ensures |facts| <= 1
  {
    match NormalizePath(w.decodeFileUrl, raw)
    case Some(path) => [Location(path, line)]
    case None => []
  }

  function MarkerFacts(w: World, raws: seq<string>): seq<Location> {
    if raws == [] then [] else MarkerFacts(w, raws[..|raws| - 1]) + RawFacts(w, raws[|raws| - 1], None)
  }

  function PathFacts(w: World, fields: seq<(string, Value)>, keys: seq<string>, line: Option<nat>): seq<Location> {
    if keys == [] then []
    else
      var before, last := PathFacts(w, fields, keys[..|keys| - 1], line), Field(fields, keys[|keys| - 1]);
      before + if last.Str? then RawFacts(w, last.text, line) else []
  }

  /** The text of a content block, if it is a text block. */
  function BlockText(w: World, block: Value): Option<string> {
    if block.Ref? && w.node(block.id).Record? then
      var fields := w.node(block.id).fields;
      if Field(fields, "type") == Str("text") && Field(fields, "text").Str?
      then Some(Field(fields, "text").text) else None
    else None
  }

  function ContentFacts(w: World, blocks: seq<Value>): seq<Location> {
    if blocks == [] then []
    else
      var last := BlockText(w, blocks[|blocks| - 1]);
      ContentFacts(w, blocks[..|blocks| - 1])
      + if last.Some? then MarkerFacts(w, MarkerPaths(last.value, "")) else []
  }

  function ContentBlocks(w: World, fields: seq<(string, Value)>): seq<Value> {
    var content := Field(fields, "content");
    if content.Ref? && w.node(content.id).Array? then w.node(content.id).items else []
  }

  function RecordFacts(w: World, fields: seq<(string, Value)>): seq<Location> {
    PathFacts(w, fields, PATH_KEYS, LineOf(fields, LINE_KEYS)) + ContentFacts(w, ContentBlocks(w, fields))
  }

  /** Everything one visited value says about locations, in the order it is added. */
  function FactsOf(w: World, v: Value): seq<Location> {
    match v
    case Str(text) => MarkerFacts(w, MarkerPaths(text, ""))
    case Number(_) => []
    case Other => []
    case Ref(id) =>
      match w.node(id)
      case Array(_) => []
      case Record(fields) => RecordFacts(w, fields)
  }

  // ---------------------------------------------------------------- the walk

  function FieldValues(fields: seq<(string, Value)>): seq<Value> {
    if fields == [] then []
    else
      var last := fields[|fields| - 1];
      FieldValues(fields[..|fields| - 1]) + if last.0 == "content" then [] else [last.1]
  }

  function Children(w: World, v: Value): seq<Value> {
    if !v.Ref? then []
    else match w.node(v.id)
      case Array(items) => items
      case Record(fields) => FieldValues(fields)
  }

  function GraphOf(w: World): Graph<Value> {
    Graph(v => Children(w, v), v => FactsOf(w, v))
  }

  method AddToolLocation(w: World, locations: LocationMap, rawPath: string, line: Option<nat>)
    modifies locations
    ensures locations.entries == InsertAll(old(locations.entries), RawFacts(w, rawPath, line))
  {
    match NormalizePath(w.decodeFileUrl, rawPath)
    case None =>
    case Some(path) =>
      locations.Add(Location(path, line));
      assert [Location(path, line)][..0] == [];
  }

  method CollectFromMarkers(w: World, locations: LocationMap, text: string)
    modifies locations
    ensures locations.entries == InsertAll(old(locations.entries), MarkerFacts(w, MarkerPaths(text, "")))
  {
    var raws := MarkerPaths(text, "");
    for i := 0 to |raws|
      invariant locations.entries == InsertAll(old(locations.entries), MarkerFacts(w, raws[..i]))
    {
      AddToolLocation(w, locations, raws[i], None);
      assert raws[..i + 1][..i] == raws[..i];
      InsertAllAppend(old(locations.entries), MarkerFacts(w, raws[..i]), RawFacts(w, raws[i], None));
    }
    assert raws[..|raws|] == raws;
  }

  method AddRecordPaths(w: World, locations: LocationMap, fields: seq<(string, Value)>, keys: seq<string>,
                        line: Option<nat>)
    modifies locations
    ensures locations.entries == InsertAll(old(locations.entries), PathFacts(w, fields, keys, line))
  {
    for i := 0 to |keys|
      invariant locations.entries == InsertAll(old(locations.entries), PathFacts(w, fields, keys[..i], line))
    {
      assert keys[..i + 1][..i] == keys[..i];
      var raw := Field(fields, keys[i]);
      if raw.Str? {
        AddToolLocation(w, locations, raw.text, line);
        InsertAllAppend(old(locations.entries), PathFacts(w, fields, keys[..i], line), RawFacts(w, raw.text, line));
      } else {
        assert PathFacts(w, fields, keys[..i], line) + [] == PathFacts(w, fields, keys[..i], line);
      }
    }
    assert keys[..|keys|] == keys;
  }

  method AddContentMarkers(w: World, locations: LocationMap, blocks: seq<Value>)
    modifies locations
    ensures locations.entries == InsertAll(old(locations.entries), ContentFacts(w, blocks))
  {
    for i := 0 to |blocks|
      invariant locations.entries == InsertAll(old(locations.entries), ContentFacts(w, blocks[..i]))
    {
      assert blocks[..i + 1][..i] == blocks[..i];
      var text := BlockText(w, blocks[i]);
      if text.Some? {
        CollectFromMarkers(w, locations, text.value);
        InsertAllAppend(old(locations.entries), ContentFacts(w, blocks[..i]),
            MarkerFacts(w, MarkerPaths(text.value, "")));
      } else {
        assert ContentFacts(w, blocks[..i]) + [] == ContentFacts(w, blocks[..i]);
      }
    }
    assert blocks[..|blocks|] == blocks;
  }

  method AddRecord(w: World, locations: LocationMap, fields: seq<(string, Value)>)
    modifies locations
    ensures locations.entries == InsertAll(old(locations.entries), RecordFacts(w, fields))
  {
    var line := LineOf(fields, LINE_KEYS);
    AddRecordPaths(w, locations, fields, PATH_KEYS, line);
    AddContentMarkers(w, locations, ContentBlocks(w, fields));
    InsertAllAppend(old(locations.entries), PathFacts(w, fields, PATH_KEYS, line),
        ContentFacts(w, ContentBlocks(w, fields)));
  }

  class VisitState {
    var visited: nat

    constructor ()
      ensures visited == 0
    {
      visited := 0;
    }
  }

  /** Exactly the values the remaining budget affords are visited, in pre-order, and their facts added. */
  method CollectToolLocations(w: World, value: Value, locations: LocationMap, state: VisitState, depth: nat)
    requires state.visited <= MAX_NODES
    modifies locations, state
    ensures Walked(GraphOf(w), Preorder(GraphOf(w), value, depth), old(state.visited), state.visited,
                   old(locations.entries), locations.entries)
    decreases MAX_DEPTH + 1 - depth, 0
  {
    ghost var g := GraphOf(w);
    if state.visited >= MAX_NODES || depth > MAX_DEPTH {
      return;
    }
    state.visited := state.visited + 1;
    ghost var spent, atNode := state.visited, locations.entries;
    match value {
      case Str(text) =>
        CollectFromMarkers(w, locations, text);
        atNode := locations.entries;
      case Number(_) =>
      case Other =>
      case Ref(id) =>
        match w.node(id) {
          case Array(items) =>
            CollectItems(w, items, locations, state, depth);
          case Record(fields) =>
            AddRecord(w, locations, fields);
            atNode := locations.entries;
            CollectFields(w, fields, locations, state, depth);
        }
    }
    WalkedNode(g, value, PreorderAll(g, Children(w, value), depth + 1), spent - 1, spent, state.visited,
               old(locations.entries), atNode, locations.entries);
  }

  method CollectItems(w: World, items: seq<Value>, locations: LocationMap, state: VisitState, depth: nat)
    requires state.visited <= MAX_NODES && depth <= MAX_DEPTH
    modifies locations, state
    ensures Walked(GraphOf(w), PreorderAll(GraphOf(w), items, depth + 1), old(state.visited), state.visited,
                   old(locations.entries), locations.entries)
    decreases MAX_DEPTH - depth, 1
  {
    ghost var g, from, before := GraphOf(w), state.visited, locations.entries;
    for i := 0 to |items|
      invariant Walked(g, PreorderAll(g, items[..i], depth + 1), from, state.visited, before, locations.entries)
    {
      ghost var mid, es := state.visited, locations.entries;
      CollectToolLocations(w, items[i], locations, state, depth + 1);
      WalkedItem(g, items, i, depth + 1, from, mid, state.visited, before, es, locations.entries);
      if state.visited >= MAX_NODES {
        WalkedItems(g, items, i + 1, depth + 1, from, state.visited, before, locations.entries);
        return;
      }
    }
    assert items[..|items|] == items;
  }

  method CollectFields(w: World, fields: seq<(string, Value)>, locations: LocationMap, state: VisitState, depth: nat)
    requires state.visited <= MAX_NODES && depth <= MAX_DEPTH
    modifies locations, state
    ensures Walked(GraphOf(w), PreorderAll(GraphOf(w), FieldValues(fields), depth + 1), old(state.visited),
           state.visited,
                   old(locations.entries), locations.entries)
    decreases MAX_DEPTH - depth, 1
  {
    ghost var g, from, before := GraphOf(w), state.visited, locations.entries;
    for i := 0 to |fields|
      invariant Walked(g, PreorderAll(g, FieldValues(fields[..i]), depth + 1), from, state.visited, before,
             locations.entries)
    {
      FieldValuesNext(fields, i);
      if fields[i].0 == "content" { continue; }
      ghost var mid, es := state.visited, locations.entries;
      CollectToolLocations(w, fields[i].1, locations, state, depth + 1);
      WalkedChild(g, FieldValues(fields[..i]), fields[i].1, depth + 1, from, mid, state.visited, before, es,
          locations.entries);
      if state.visited >= MAX_NODES {
        ghost var rest := FieldValuesPrefix(fields, i + 1);
        WalkedEnough(g, FieldValues(fields[..i + 1]), rest, depth + 1, from, state.visited, before, locations.entries);
        return;
      }
    }
    assert fields[..|fields|] == fields;
  }

  lemma FieldValuesNext(fields: seq<(string, Value)>, i: nat)
    requires i < |fields|
    ensures FieldValues(fields[..i + 1])
         == FieldValues(fields[..i]) + if fields[i].0 == "content" then [] else [fields[i].1]
    ensures fields[i].0 == "content" ==> FieldValues(fields[..i + 1]) == FieldValues(fields[..i])
  {
    assert fields[..i + 1][..i] == fields[..i];
  }

  lemma {:induction false} FieldValuesPrefix(fields: seq<(string, Value)>, i: nat) returns (rest: seq<Value>)
    requires i <= |fields|
    ensures FieldValues(fields) == FieldValues(fields[..i]) + rest
  {
    if i == |fields| {
      assert fields[..i] == fields;
      rest := [];
    } else {
      var shorter, last := fields[..|fields| - 1], fields[|fields| - 1];
      rest := FieldValuesPrefix(shorter, i);
      assert shorter[..i] == fields[..i];
      rest := rest + if last.0 == "content" then [] else [last.1];
    }
  }

  // ---------------------------------------------------------------- the whole extraction

  /** The facts of the first hundred values of each argument's pre-order. */
  function AllBudgetedFacts(w: World, values: seq<Value>): seq<Location> {
    if values == [] then []
    else AllBudgetedFacts(w, values[..|values| - 1]) + BudgetedFacts(GraphOf(w), values[|values| - 1])
  }

  method ExtractToolCallLocations(w: World, values: seq<Value>) returns (found: Option<seq<Location>>)
    ensures found.None? <==> AllBudgetedFacts(w, values) == []
    ensures found.Some? ==> forall i, k :: 0 <= i < k < |found.value| ==> found.value[i] != found.value[k]
    ensures found.Some? ==> (set l | l in found.value) == Canonical((set l | l in AllBudgetedFacts(w, values)))
  {
    var locations := new LocationMap();
    for i := 0 to |values|
      invariant locations.entries == InsertAll([], AllBudgetedFacts(w, values[..i]))
    {
      var state := new VisitState();
      CollectToolLocations(w, values[i], locations, state, 0);
      assert values[..i + 1][..i] == values[..i];
      InsertAllAppend([], AllBudgetedFacts(w, values[..i]), BudgetedFacts(GraphOf(w), values[i]));
    }
    assert values[..|values|] == values;
    var es := locations.entries;
    ValuesOfEntries(es, AllBudgetedFacts(w, values));
    if |es| == 0 { return None; }
    found := Some(seq(|es|, i requires 0 <= i < |es| => es[i].value));
  }

  lemma ValuesOfEntries(es: seq<Entry>, facts: seq<Location>)
    requires es == InsertAll([], facts)
    ensures es == [] <==> facts == []
    ensures var all := seq(|es|, i requires 0 <= i < |es| => es[i].value);
            && (forall i, k :: 0 <= i < k < |all| ==> all[i] != all[k])
            && (set l | l in all) == Canonical((set l | l in facts))
  {
    InsertAllIsCanonical(facts);
    if facts != [] { PathKept((set l | l in facts), facts[0]); }
    var all := seq(|es|, i requires 0 <= i < |es| => es[i].value);
    forall l | l in Locations(es) ensures l in all {
      var e :| e in es && e.value == l;
      var i :| 0 <= i < |es| && es[i] == e;
      assert all[i] == l;
    }
    forall l | l in all ensures l in Locations(es) {
      var i :| 0 <= i < |all| && all[i] == l;
      assert es[i] in es;
    }
  }
}
