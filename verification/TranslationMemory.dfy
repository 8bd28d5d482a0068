/** The translation memory and its file of lines (scripts/docs-i18n/tm.go). */
module TranslationMemory {
  import opened Text
  import opened FrontMatter
  import opened SortedNames

  datatype Entry = Entry(cacheKey: string, segmentId: string, sourcePath: string, textHash: string, text: string,
                         translated: string, provider: string, model: string, srcLang: string, tgtLang: string,
                         updatedAt: string)

  /** How entries are written and read: JSON, one entry a line. */
  datatype Codec = Codec(marshal: Entry -> string, unmarshal: string -> Option<Entry>)

  ghost predicate Faithful(codec: Codec) {
    forall e :: '\n' !in codec.marshal(e) && Trimmed(codec.marshal(e)) && codec.marshal(e) != ""
                && codec.unmarshal(codec.marshal(e)) == Some(e)
  }

  type Entries = map<string, Entry>

  /** Entries sit under their own key, which is not empty. */
  ghost predicate Keyed(entries: Entries) {
    forall key :: key in entries ==> key != "" && entries[key].cacheKey == key
  }

  predicate Usable(e: Entry) { TrimSpace(e.translated) != "" }

  function Lookup(entries: Entries, key: string): Option<Entry> {
    if key in entries && Usable(entries[key]) then Some(entries[key]) else None
  }

  function Stored(entries: Entries, e: Entry): Entries {
    if e.cacheKey == "" then entries else entries[e.cacheKey := e]
  }

  // ---------------------------------------------------------------- loading

  /** The entries after one more line; None when it cannot be decoded. */
  function LoadLine(codec: Codec, entries: Entries, line: string): Option<Entries> {
    var trimmed := TrimSpace(line);
    if trimmed == "" then Some(entries)
    else
      match codec.unmarshal(trimmed)
      case None => None
      case Some(e) => Some(if e.cacheKey != "" && Usable(e) then entries[e.cacheKey := e] else entries)
  }

  function Loaded(codec: Codec, lines: seq<string>): Option<Entries> {
    if lines == [] then Some(map[])
    else
      match Loaded(codec, lines[..|lines| - 1])
      case None => None
      case Some(entries) => LoadLine(codec, entries, lines[|lines| - 1])
  }

  // ---------------------------------------------------------------- saving

  function SavedLines(codec: Codec, entries: Entries, keys: seq<string>): seq<string>
    requires forall k :: k in keys ==> k in entries
  {
    seq(|keys|, i requires 0 <= i < |keys| => assert keys[i] in keys; codec.marshal(entries[keys[i]]))
  }

  /** The file: every line with its line break. */
  function Content(lines: seq<string>): string {
    if lines == [] then "" else lines[0] + "\n" + Content(lines[1..])
  }

  class Memory {
    var entries: Entries

    ghost predicate Valid()
      reads this
    {
      Keyed(entries)
    }

    constructor ()
      ensures Valid() && entries == map[]
    {
      entries := map[];
    }

    /** Reads a file into an empty memory; false stands for the decoding error. */
    method Load(codec: Codec, content: string) returns (ok: bool)
      requires entries == map[]
      modifies this
      ensures Valid() && ok == Loaded(codec, SplitLines(content)).Some?
      ensures ok ==> Loaded(codec, SplitLines(content)) == Some(entries)
    {
      var lines := SplitLines(content);
      for i := 0 to |lines|
        invariant Valid() && Loaded(codec, lines[..i]) == Some(entries)
      {
        assert lines[..i + 1][..i] == lines[..i];
        var trimmed := TrimSpace(lines[i]);
        if trimmed != "" {
          var entry := codec.unmarshal(trimmed);
          if entry.None? {
            UndecodableStays(codec, lines, i + 1);
            return false;
          }
          if entry.value.cacheKey != "" && Usable(entry.value) {
            entries := entries[entry.value.cacheKey := entry.value];
          }
        }
      }
      assert lines[..|lines|] == lines;
      ok := true;
    }

    method Get(cacheKey: string) returns (r: Option<Entry>)
      ensures r == Lookup(entries, cacheKey)
    {
      if cacheKey !in entries { return None; }
      var entry := entries[cacheKey];
      if TrimSpace(entry.translated) == "" { return None; }
      r := Some(entry);
    }

    method Put(entry: Entry)
      requires Valid()
      modifies this
      ensures Valid() && entries == Stored(old(entries), entry)
    {
      if entry.cacheKey == "" { return; }
      entries := entries[entry.cacheKey := entry];
    }

    /** The text written; the sorted keys are given. */
    method Save(codec: Codec, keys: seq<string>) returns (content: string)
      requires IsSorted(keys, entries.Keys)
      ensures content == Content(SavedLines(codec, entries, keys))
    {
      content := "";
      for i := 0 to |keys|
        invariant content + Content(SavedLines(codec, entries, keys)[i..]) == Content(SavedLines(codec, entries, keys))
      {
        ghost var lines := SavedLines(codec, entries, keys);
        assert keys[i] in keys && lines[i] == codec.marshal(entries[keys[i]]) && lines[i..][1..] == lines[i + 1..];
        content := content + codec.marshal(entries[keys[i]]);
        content := content + "\n";
      }
    }
  }

  lemma {:induction false} UndecodableStays(codec: Codec, lines: seq<string>, n: nat)
    requires n <= |lines| && Loaded(codec, lines[..n]).None?
    ensures Loaded(codec, lines).None?
  {
    if n == |lines| {
      assert lines[..n] == lines;
    } else {
      assert lines[..|lines| - 1][..n] == lines[..n];
      UndecodableStays(codec, lines[..|lines| - 1], n);
    }
  }

  // ---------------------------------------------------------------- saving and loading

  lemma {:induction false} ContentSplits(lines: seq<string>)
    requires forall i :: 0 <= i < |lines| ==> '\n' !in lines[i]
    ensures SplitLines(Content(lines)) == lines + [""]
  {
    if lines != [] {
      ContentSplits(lines[1..]);
      SplitConcat(lines[0], Content(lines[1..]));
      SingleLine(lines[0]);
      assert lines == [lines[0]] + lines[1..];
    }
  }

  function UsableUpTo(entries: Entries, keys: seq<string>, n: nat): Entries
    requires n <= |keys|
  {
    map k | k in entries && Usable(entries[k]) && k in keys[..n] :: entries[k]
  }

  lemma {:induction false} SavedLoads(codec: Codec, entries: Entries, keys: seq<string>, n: nat)
    requires Faithful(codec) && Keyed(entries) && (forall k :: k in keys ==> k in entries) && n <= |keys|
    ensures Loaded(codec, SavedLines(codec, entries, keys)[..n]) == Some(UsableUpTo(entries, keys, n))
  {
    var lines := SavedLines(codec, entries, keys);
    if n > 0 {
      SavedLoads(codec, entries, keys, n - 1);
      assert lines[..n][..n - 1] == lines[..n - 1];
      assert keys[n - 1] in keys;
      var e := entries[keys[n - 1]];
      assert lines[n - 1] == codec.marshal(e);
      TrimmedIsFixed(codec.marshal(e));
      UsableNext(entries, keys, n);
    }
  }

  lemma UsableNext(entries: Entries, keys: seq<string>, n: nat)
    requires 0 < n <= |keys| && keys[n - 1] in entries
    ensures var before, e := UsableUpTo(entries, keys, n - 1), entries[keys[n - 1]];
            UsableUpTo(entries, keys, n) == if Usable(e) then before[keys[n - 1] := e] else before
  {
    assert keys[..n] == keys[..n - 1] + [keys[n - 1]];
  }

  /** The entries with a translation that is not blank. */
  function UsableEntries(entries: Entries): Entries { map k | k in entries && Usable(entries[k]) :: entries[k] }

  /** Saving and loading keeps exactly the usable entries. */
  lemma LoadOfSave(codec: Codec, entries: Entries, keys: seq<string>)
    requires Faithful(codec) && Keyed(entries) && IsSorted(keys, entries.Keys)
    ensures Loaded(codec, SplitLines(Content(SavedLines(codec, entries, keys)))) == Some(UsableEntries(entries))
  {
    var lines := SavedLines(codec, entries, keys);
    forall i | 0 <= i < |lines| ensures '\n' !in lines[i] { assert keys[i] in keys; }
    ContentSplits(lines);
    SavedLoads(codec, entries, keys, |keys|);
    assert lines[..|keys|] == lines && keys[..|keys|] == keys;
    assert (lines + [""])[..|lines|] == lines && TrimSpace("") == "";
    assert UsableUpTo(entries, keys, |keys|) == UsableEntries(entries);
  }

  /** Every key is answered alike before saving and after loading. */
  lemma LookupSurvives(codec: Codec, entries: Entries, keys: seq<string>, key: string)
    requires Faithful(codec) && Keyed(entries) && IsSorted(keys, entries.Keys)
    ensures Loaded(codec, SplitLines(Content(SavedLines(codec, entries, keys)))).Some?
    ensures Lookup(Loaded(codec, SplitLines(Content(SavedLines(codec, entries, keys)))).value, key)
           == Lookup(entries, key)
  {
    LoadOfSave(codec, entries, keys);
  }

  lemma ResavedAreUsable(codec: Codec, entries: Entries, keys: seq<string>)
    requires Faithful(codec) && IsSorted(keys, UsableEntries(entries).Keys)
    ensures var lines := SavedLines(codec, UsableEntries(entries), keys);
            forall i :: 0 <= i < |lines| ==> codec.unmarshal(lines[i]).Some? && Usable(codec.unmarshal(lines[i]).value)
  {
    var lines := SavedLines(codec, UsableEntries(entries), keys);
    forall i | 0 <= i < |lines| ensures codec.unmarshal(lines[i]).Some? && Usable(codec.unmarshal(lines[i]).value) {
      assert keys[i] in keys && lines[i] == codec.marshal(entries[keys[i]]);
    }
  }

  /** Saving a loaded memory again gives the same lines exactly when no translation was blank. */
  lemma ResaveIff(codec: Codec, entries: Entries, keys: seq<string>, again: seq<string>)
    requires Faithful(codec) && Keyed(entries) && IsSorted(keys, entries.Keys)
    requires IsSorted(again, UsableEntries(entries).Keys)
    ensures SavedLines(codec, UsableEntries(entries), again) == SavedLines(codec, entries, keys)
       <==> forall k :: k in entries ==> Usable(entries[k])
  {
    var lines, resaved := SavedLines(codec, entries, keys), SavedLines(codec, UsableEntries(entries), again);
    if forall k :: k in entries ==> Usable(entries[k]) {
      assert UsableEntries(entries) == entries;
      SortedIsUnique(keys, again, entries.Keys);
    } else {
      var k :| k in entries && !Usable(entries[k]);
      assert k in keys;
      var i :| 0 <= i < |keys| && keys[i] == k;
      assert codec.unmarshal(lines[i]) == Some(entries[k]);
      ResavedAreUsable(codec, entries, again);
    }
  }
}
