/** The cached translation of the segments of a file (scripts/docs-i18n/process.go, util.go). */
module CachedSegments {
  import opened Text
  import opened TranslationMemory

  // ---------------------------------------------------------------- normal form and keys

  /** The words of a text, as `strings.Fields` splits it. */
  function Fields(text: string): seq<string> {
    if text == "" then []
    else if IsSpace(text[0]) then Fields(text[1..])
    else if |text| == 1 || IsSpace(text[1]) then [[text[0]]] + Fields(text[1..])
    else
      var rest := Fields(text[1..]);
      if rest == [] then [[text[0]]] else [[text[0]] + rest[0]] + rest[1..]
  }

  function JoinWords(words: seq<string>): string {
    if words == [] then "" else if |words| == 1 then words[0] else words[0] + " " + JoinWords(words[1..])
  }

  function NormalizeText(text: string): string { JoinWords(Fields(TrimSpace(text))) }

  predicate AreWords(words: seq<string>) {
    forall i :: 0 <= i < |words| ==> words[i] != "" && forall k :: 0 <= k < |words[i]| ==> !IsSpace(words[i][k])
  }

  lemma {:induction false} FieldsAreWords(text: string)
    ensures AreWords(Fields(text))
  {
    if text != "" {
      FieldsAreWords(text[1..]);
    }
  }

  /** A word followed by nothing or by a space stays a word. */
  lemma {:induction false} FieldsOfWord(word: string, tail: string)
    requires AreWords([word]) && (tail == "" || IsSpace(tail[0]))
    ensures Fields(word + tail) == [word] + Fields(tail)
  {
    var text := word + tail;
    assert [word][0] == word;
    if |word| == 1 {
      assert text[1..] == tail && word == [word[0]];
    } else {
      assert [word[1..]][0] == word[1..];
      FieldsOfWord(word[1..], tail);
      assert text[1..] == word[1..] + tail;
      assert word == [word[0]] + word[1..] && text[1..][0] == word[1];
      assert ([word[1..]] + Fields(tail))[1..] == Fields(tail);
    }
  }

  lemma {:induction false} FieldsOfJoin(words: seq<string>)
    requires AreWords(words)
    ensures Fields(JoinWords(words)) == words
  {
    if words != [] {
      FieldsOfJoin(words[1..]);
      var tail := if |words| == 1 then "" else " " + JoinWords(words[1..]);
      assert JoinWords(words) == words[0] + tail;
      FieldsOfWord(words[0], tail);
      assert |words| > 1 ==> tail[1..] == JoinWords(words[1..]);
    }
  }

  /** The normal form stands for the words between the white space. */
  lemma NormalFormIsWords(a: string, b: string)
    ensures NormalizeText(a) == NormalizeText(b) <==> Fields(TrimSpace(a)) == Fields(TrimSpace(b))
    ensures NormalizeText(NormalizeText(a)) == NormalizeText(a)
  {
    var x, y := Fields(TrimSpace(a)), Fields(TrimSpace(b));
    FieldsAreWords(TrimSpace(a));
    FieldsAreWords(TrimSpace(b));
    FieldsOfJoin(x);
    FieldsOfJoin(y);
    JoinIsTrimmed(x);
    TrimmedIsFixed(JoinWords(x));
  }

  lemma {:induction false} JoinIsTrimmed(words: seq<string>)
    requires AreWords(words)
    ensures Trimmed(JoinWords(words)) && (words != [] ==> JoinWords(words) != "")
  {
    if |words| > 1 { JoinIsTrimmed(words[1..]); }
  }

  /** What the cache keys of one file are made of. */
  datatype Keys = Keys(hash: string -> string, digest: string -> string, scope: string, relPath: string)

  function HashText(keys: Keys, text: string): string { keys.hash(NormalizeText(text)) }

  function SegmentId(keys: Keys, textHash: string): string {
    keys.relPath + ":" + if |textHash| > 16 then textHash[..16] else textHash
  }

  /** What the digest of a text's key is taken of. */
  function RawKey(keys: Keys, text: string): string {
    keys.scope + "|" + SegmentId(keys, HashText(keys, text)) + "|" + HashText(keys, text)
  }

  /** The cache key of a text; `scope` stands for the namespace and the two languages. */
  function CacheKey(keys: Keys, text: string): string {
    keys.digest(RawKey(keys, text))
  }

  /** On the known texts neither hash collides; hashes are written without bars, and a digest is not empty. */
  ghost predicate CollisionFree(keys: Keys, known: iset<string>) {
    && (forall text :: '|' !in keys.hash(text))
    && (forall raw :: keys.digest(raw) != "")
    && (forall a, b :: a in known && b in known && HashText(keys, a) == HashText(keys, b)
          ==> NormalizeText(a) == NormalizeText(b))
    && (forall a, b :: a in known && b in known && CacheKey(keys, a) == CacheKey(keys, b)
          ==> RawKey(keys, a) == RawKey(keys, b))
  }

  lemma LastBar(a: string, x: string, b: string, y: string)
    requires a + "|" + x == b + "|" + y && '|' !in x && '|' !in y
    ensures x == y
  {
    var s, t := a + "|" + x, b + "|" + y;
    assert s[|a|] == '|' && t[|b|] == '|';
    assert forall i :: |a| < i < |s| ==> s[i] == x[i - |a| - 1];
    assert forall i :: |b| < i < |t| ==> t[i] == y[i - |b| - 1];
    assert s[|a| + 1..] == x && t[|b| + 1..] == y;
  }

  /** Two known texts share a cache key exactly when they are the same up to white space. */
  lemma KeyMeansNormalForm(keys: Keys, known: iset<string>, a: string, b: string)
    requires CollisionFree(keys, known) && a in known && b in known
    ensures CacheKey(keys, a) == CacheKey(keys, b) <==> NormalizeText(a) == NormalizeText(b)
  {
    if CacheKey(keys, a) == CacheKey(keys, b) {
      var ha, hb := HashText(keys, a), HashText(keys, b);
      LastBar(keys.scope + "|" + SegmentId(keys, ha), ha, keys.scope + "|" + SegmentId(keys, hb), hb);
    }
  }

  function Shortened(h: string): string { if |h| > 16 then h[..16] else h }

  lemma SegmentIdParts(keys: Keys, h: string)
    requires '|' !in h && '|' !in keys.relPath
    ensures '|' !in SegmentId(keys, h) && SegmentId(keys, h) == keys.relPath + ":" + Shortened(h)
  {
    assert forall c :: c in Shortened(h) ==> c in h;
  }

  lemma SameFront(a: string, b: string, bar: string, tail: string)
    requires a + bar + tail == b + bar + tail
    ensures a == b
  {
    var all := a + bar + tail;
    assert a == all[..|all| - |bar| - |tail|] && b == (b + bar + tail)[..|all| - |bar| - |tail|];
  }

  /** Keys of other languages, or of other files, are made of other texts, even for the same segment. */
  lemma RawKeysDiffer(keys: Keys, other: Keys, a: string, b: string)
    requires '|' !in HashText(keys, a) && '|' !in HashText(other, b) && '|' !in keys.relPath && '|' !in other.relPath
    ensures RawKey(keys, a) == RawKey(other, b)
       <==> keys.scope == other.scope && keys.relPath == other.relPath && HashText(keys, a) == HashText(other, b)
  {
    var h, g := HashText(keys, a), HashText(other, b);
    if RawKey(keys, a) == RawKey(other, b) {
      LastBar(keys.scope + "|" + SegmentId(keys, h), h, other.scope + "|" + SegmentId(other, g), g);
      SameFront(keys.scope + "|" + SegmentId(keys, h), other.scope + "|" + SegmentId(other, g), "|", h);
      SameScope(keys, other, h);
    }
  }

  lemma SameScope(keys: Keys, other: Keys, h: string)
    requires '|' !in h && '|' !in keys.relPath && '|' !in other.relPath
    requires keys.scope + "|" + SegmentId(keys, h) == other.scope + "|" + SegmentId(other, h)
    ensures keys.scope == other.scope && keys.relPath == other.relPath
  {
    var id := SegmentId(keys, h);
    SegmentIdParts(keys, h);
    SegmentIdParts(other, h);
    LastBar(keys.scope, id, other.scope, SegmentId(other, h));
    SameFront(keys.scope, other.scope, "|", id);
    SameFront(keys.relPath, other.relPath, ":", Shortened(h));
  }

  /** Two letters for every character. */
  function Spelled(text: string): string {
    seq(2 * |text|, i requires 0 <= i < 2 * |text| =>
      var c := text[i / 2] as int; (1000 + if i % 2 == 0 then c / 1000 else c % 1000) as char)
  }

  lemma SpelledInjective(a: string, b: string)
    requires Spelled(a) == Spelled(b)
    ensures a == b
  {
    assert |Spelled(a)| == 2 * |a| && |Spelled(b)| == 2 * |b|;
    forall i | 0 <= i < |a| ensures a[i] == b[i] {
      assert Spelled(a)[2 * i] == Spelled(b)[2 * i] && Spelled(a)[2 * i + 1] == Spelled(b)[2 * i + 1];
      assert (2 * i) / 2 == i == (2 * i + 1) / 2 && (2 * i) % 2 == 0 && (2 * i + 1) % 2 == 1;
    }
  }

  /** Such keys exist, whatever is known. */
  lemma KeysExist(scope: string, relPath: string, known: iset<string>) returns (keys: Keys)
    ensures CollisionFree(keys, known)
  {
    keys := Keys(Spelled, text => "#" + text, scope, relPath);
    forall text ensures '|' !in keys.hash(text) {
      forall i | 0 <= i < |Spelled(text)| ensures Spelled(text)[i] != '|' {}
    }
    forall a, b | HashText(keys, a) == HashText(keys, b) ensures NormalizeText(a) == NormalizeText(b) {
      SpelledInjective(NormalizeText(a), NormalizeText(b));
    }
    forall a, b | CacheKey(keys, a) == CacheKey(keys, b) ensures RawKey(keys, a) == RawKey(keys, b) {
      assert ("#" + RawKey(keys, a))[1..] == RawKey(keys, a) && ("#" + RawKey(keys, b))[1..] == RawKey(keys, b);
    }
  }

  // ---------------------------------------------------------------- the loop

  /** The translator, and the entry that is stored for a translation. */
  datatype Translator = Translator(translate: string -> Option<string>, key: string -> string, origin: Entry)

  function EntryFor(t: Translator, text: string, translated: string): Entry {
    t.origin.(cacheKey := t.key(text), text := text, translated := translated)
  }

  function Cached(t: Translator, entries: Entries, text: string): bool { Lookup(entries, t.key(text)).Some? }

  /** The memory after one segment. */
  function Next(t: Translator, entries: Entries, text: string): Entries {
    if Cached(t, entries, text) || t.translate(text).None? then entries
    else Stored(entries, EntryFor(t, text, t.translate(text).value))
  }

  /** The memory when the n-th segment comes. */
  function MemoryAt(t: Translator, entries: Entries, texts: seq<string>, n: nat): Entries
    requires n <= |texts|
  {
    if n == 0 then entries else Next(t, MemoryAt(t, entries, texts, n - 1), texts[n - 1])
  }

  /** What segment n becomes; None when the translator fails. */
  function Result(t: Translator, entries: Entries, texts: seq<string>, n: nat): Option<string>
    requires n < |texts|
  {
    var cached := Lookup(MemoryAt(t, entries, texts, n), t.key(texts[n]));
    if cached.Some? then Some(cached.value.translated) else t.translate(texts[n])
  }

  /** Segment n is sent to the translator. */
  predicate Asked(t: Translator, entries: Entries, texts: seq<string>, n: nat)
    requires n < |texts|
  {
    !Cached(t, MemoryAt(t, entries, texts, n), texts[n])
  }

  /** The segments among the first n that were sent, in order. */
  ghost predicate IsAskedList(t: Translator, entries: Entries, texts: seq<string>, n: nat, asked: seq<nat>)
    requires n <= |texts|
  {
    && (forall i: nat :: i in asked <==> i < n && Asked(t, entries, texts, i))
    && (forall a, b :: 0 <= a < b < |asked| ==> asked[a] < asked[b])
  }

  lemma AskedNext(t: Translator, entries: Entries, texts: seq<string>, n: nat, asked: seq<nat>)
    requires n < |texts| && IsAskedList(t, entries, texts, n, asked)
    ensures IsAskedList(t, entries, texts, n + 1, if Asked(t, entries, texts, n) then asked + [n] else asked)
  {
    if Asked(t, entries, texts, n) {
      var all := asked + [n];
      forall a, b | 0 <= a < b < |all| ensures all[a] < all[b] { assert all[a] in asked; }
      forall i: nat ensures i in all <==> i < n + 1 && Asked(t, entries, texts, i) {
        assert i in all <==> i in asked || i == n;
      }
    }
  }

  ghost predicate AreResults(t: Translator, entries: Entries, texts: seq<string>, results: seq<string>) {
    |results| <= |texts| && forall i :: 0 <= i < |results| ==> Result(t, entries, texts, i) == Some(results[i])
  }

  lemma ResultsNext(t: Translator, entries: Entries, texts: seq<string>, results: seq<string>, next: string)
    requires AreResults(t, entries, texts, results) && |results| < |texts|
    requires Result(t, entries, texts, |results|) == Some(next)
    ensures AreResults(t, entries, texts, results + [next])
  {}

  method TranslateSegments(t: Translator, memory: Memory, texts: seq<string>)
    returns (results: seq<string>, asked: seq<nat>)
    requires memory.Valid()
    modifies memory
    ensures memory.Valid() && |results| <= |texts|
    ensures AreResults(t, old(memory.entries), texts, results)
    ensures |results| < |texts| ==> Result(t, old(memory.entries), texts, |results|).None?
    ensures memory.entries == MemoryAt(t, old(memory.entries), texts, |results|)
    ensures IsAskedList(t, old(memory.entries), texts, if |results| < |texts| then |results| + 1 else |texts|, asked)
  {
    results, asked := [], [];
    for i := 0 to |texts|
      invariant memory.Valid() && |results| == i
      invariant memory.entries == MemoryAt(t, old(memory.entries), texts, i)
      invariant AreResults(t, old(memory.entries), texts, results)
      invariant IsAskedList(t, old(memory.entries), texts, i, asked)
    {
      AskedNext(t, old(memory.entries), texts, i, asked);
      var entry := memory.Get(t.key(texts[i]));
      if entry.Some? {
        ResultsNext(t, old(memory.entries), texts, results, entry.value.translated);
        results := results + [entry.value.translated];
      } else {
        asked := asked + [i];
        var translated := t.translate(texts[i]);
        if translated.None? { return; }
        ResultsNext(t, old(memory.entries), texts, results, translated.value);
        results := results + [translated.value];
        memory.Put(EntryFor(t, texts[i], translated.value));
      }
    }
  }

  // ---------------------------------------------------------------- what the cache guarantees

  predicate IsBlankResult(translated: string) { TrimSpace(translated) == "" }

  /** The segment was sent, and its translation was stored and is not blank. */
  predicate Taught(t: Translator, entries: Entries, texts: seq<string>, i: nat)
    requires i < |texts|
  {
    Asked(t, entries, texts, i) && t.translate(texts[i]).Some? && !IsBlankResult(t.translate(texts[i]).value)
  }

  ghost predicate SomeTaught(t: Translator, entries: Entries, texts: seq<string>, n: nat, key: string)
    requires n <= |texts|
  {
    exists i :: 0 <= i < n && t.key(texts[i]) == key && Taught(t, entries, texts, i)
  }

  /** What is looked up: the first memory's entry, or the one translation that was taught. */
  lemma {:induction false} LookupMeaning(t: Translator, entries: Entries, texts: seq<string>, n: nat, key: string)
    requires n <= |texts| && forall text :: t.key(text) != ""
    ensures Lookup(MemoryAt(t, entries, texts, n), key).Some?
       <==> Lookup(entries, key).Some? || SomeTaught(t, entries, texts, n, key)
    ensures Lookup(entries, key).Some? ==> Lookup(MemoryAt(t, entries, texts, n), key) == Lookup(entries, key)
    ensures forall i :: 0 <= i < n && t.key(texts[i]) == key && Taught(t, entries, texts, i) ==>
              Lookup(MemoryAt(t, entries, texts, n), key) == Some(EntryFor(t, texts[i], t.translate(texts[i]).value))
  {
    if n > 0 {
      LookupMeaning(t, entries, texts, n - 1, key);
      var m, text := MemoryAt(t, entries, texts, n - 1), texts[n - 1];
      assert SomeTaught(t, entries, texts, n, key)
        <==> SomeTaught(t, entries, texts, n - 1, key) || (t.key(text) == key && Taught(t, entries, texts, n - 1));
    }
  }

  /**
   * A segment is sent to the translator exactly when the first memory has no usable translation under its key and no
   * earlier segment with the same key got one that is not blank.
   */
  lemma AskedExactlyWhenUnknown(t: Translator, entries: Entries, texts: seq<string>, n: nat)
    requires n < |texts| && forall text :: t.key(text) != ""
    ensures Asked(t, entries, texts, n)
       <==> Lookup(entries, t.key(texts[n])).None? && !SomeTaught(t, entries, texts, n, t.key(texts[n]))
  {
    LookupMeaning(t, entries, texts, n, t.key(texts[n]));
  }

  /** The translator with the cache keys of a file; the texts of the file are among the known ones. */
  ghost predicate UsesKeys(t: Translator, keys: Keys, known: iset<string>, texts: seq<string>) {
    && CollisionFree(keys, known)
    && (forall text :: t.key(text) == CacheKey(keys, text))
    && (forall i :: 0 <= i < |texts| ==> texts[i] in known)
  }

  /** Of the segments with the same normal form at most one gets a translation that is not blank by asking for it. */
  lemma TaughtAtMostOnce(t: Translator, keys: Keys, known: iset<string>, entries: Entries, texts: seq<string>,
                         i: nat, n: nat)
    requires i < n < |texts| && UsesKeys(t, keys, known, texts) && NormalizeText(texts[i]) == NormalizeText(texts[n])
    requires Taught(t, entries, texts, i)
    ensures !Asked(t, entries, texts, n)
    ensures Result(t, entries, texts, n) == t.translate(texts[i])
  {
    KeyMeansNormalForm(keys, known, texts[i], texts[n]);
    LookupMeaning(t, entries, texts, n, t.key(texts[n]));
  }

  /** A usable entry under the key of the text is the translation of a known text with that key. */
  ghost predicate ConsistentFor(t: Translator, known: iset<string>, entries: Entries, text: string) {
    t.key(text) in entries && Usable(entries[t.key(text)])
    ==> exists other :: other in known && t.key(other) == t.key(text)
                        && t.translate(other) == Some(entries[t.key(text)].translated)
  }

  /** So it is for each text of the file; entries of other files and of front matter may be whatever they are. */
  ghost predicate Consistent(t: Translator, known: iset<string>, entries: Entries, texts: seq<string>) {
    forall i :: 0 <= i < |texts| ==> ConsistentFor(t, known, entries, texts[i])
  }

  lemma NextIsConsistent(t: Translator, known: iset<string>, entries: Entries, text: string, learnt: string)
    requires ConsistentFor(t, known, entries, text) && learnt in known
    ensures ConsistentFor(t, known, Next(t, entries, learnt), text)
  {}

  lemma {:induction false} StaysConsistent(t: Translator, known: iset<string>, entries: Entries, texts: seq<string>,
                                           n: nat)
    requires n <= |texts| && Consistent(t, known, entries, texts) && forall i :: 0 <= i < |texts| ==> texts[i] in known
    ensures Consistent(t, known, MemoryAt(t, entries, texts, n), texts)
  {
    if n > 0 {
      StaysConsistent(t, known, entries, texts, n - 1);
      forall i | 0 <= i < |texts| ensures ConsistentFor(t, known, MemoryAt(t, entries, texts, n), texts[i]) {
        NextIsConsistent(t, known, MemoryAt(t, entries, texts, n - 1), texts[i], texts[n - 1]);
      }
    }
  }

  /** Every segment becomes the translation of some known text with the same normal form. */
  lemma ResultsAgree(t: Translator, keys: Keys, known: iset<string>, entries: Entries, texts: seq<string>, n: nat)
    returns (text: string)
    requires n < |texts| && UsesKeys(t, keys, known, texts) && Consistent(t, known, entries, texts)
    requires Result(t, entries, texts, n).Some?
    ensures text in known && NormalizeText(text) == NormalizeText(texts[n])
    ensures t.translate(text) == Result(t, entries, texts, n)
  {
    StaysConsistent(t, known, entries, texts, n);
    var m, key := MemoryAt(t, entries, texts, n), t.key(texts[n]);
    if Lookup(m, key).Some? {
      assert ConsistentFor(t, known, m, texts[n]);
      text :| text in known && t.key(text) == key && t.translate(text) == Some(m[key].translated);
      KeyMeansNormalForm(keys, known, text, texts[n]);
    } else {
      text := texts[n];
    }
  }

  /** Entries under keys that no text of the file has leave a memory consistent, whatever they hold. */
  lemma OtherEntriesAreFine(t: Translator, known: iset<string>, entries: Entries, others: Entries, texts: seq<string>)
    requires Consistent(t, known, entries, texts)
    requires forall i :: 0 <= i < |texts| ==> t.key(texts[i]) !in others
    ensures Consistent(t, known, entries + others, texts)
  {
    forall i | 0 <= i < |texts| ensures ConsistentFor(t, known, entries + others, texts[i]) {
      assert ConsistentFor(t, known, entries, texts[i]);
    }
  }
}
