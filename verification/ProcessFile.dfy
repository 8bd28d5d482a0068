/**
 * The segments of a file, translated through the cache and spliced back (scripts/docs-i18n/process.go,
 * processFile).
 */
module ProcessFile {
  import opened Text
  import opened TranslationMemory
  import opened CachedSegments
  import Segments
  import Splicing

  /** A translator that gives every text back. */
  ghost predicate Echoes(t: Translator) { forall text :: t.translate(text) == Some(text) }

  /** Texts that differ at most in white space are equal, blank ones aside. */
  ghost predicate NoVariants(texts: seq<string>) {
    forall i, j :: 0 <= i < j < |texts| && TrimSpace(texts[i]) != ""
        && NormalizeText(texts[i]) == NormalizeText(texts[j])
      ==> texts[i] == texts[j]
  }

  /** What the cache holds for a text, with an echoing translator and an empty memory. */
  lemma CachedIsEarlier(t: Translator, keys: Keys, known: iset<string>, texts: seq<string>, n: nat) returns (i: nat)
    requires UsesKeys(t, keys, known, texts) && Echoes(t) && n < |texts| && !Asked(t, map[], texts, n)
    ensures i < n && NormalizeText(texts[i]) == NormalizeText(texts[n]) && TrimSpace(texts[i]) != ""
    ensures Result(t, map[], texts, n) == Some(texts[i])
  {
    AskedExactlyWhenUnknown(t, map[], texts, n);
    i :| 0 <= i < n && t.key(texts[i]) == t.key(texts[n]) && Taught(t, map[], texts, i);
    LookupMeaning(t, map[], texts, n, t.key(texts[n]));
    KeyMeansNormalForm(keys, known, texts[i], texts[n]);
  }

  lemma FirstVariantWins(t: Translator, keys: Keys, known: iset<string>, texts: seq<string>, i: nat, j: nat)
    requires UsesKeys(t, keys, known, texts) && Echoes(t) && i < j < |texts| && TrimSpace(texts[i]) != ""
    requires NormalizeText(texts[i]) == NormalizeText(texts[j])
    ensures Result(t, map[], texts, j) == Result(t, map[], texts, i)
  {
    if Asked(t, map[], texts, i) {
      TaughtAtMostOnce(t, keys, known, map[], texts, i, j);
    } else {
      AskedExactlyWhenUnknown(t, map[], texts, i);
      var k :| 0 <= k < i && t.key(texts[k]) == t.key(texts[i]) && Taught(t, map[], texts, k);
      KeyMeansNormalForm(keys, known, texts[k], texts[i]);
      TaughtAtMostOnce(t, keys, known, map[], texts, k, i);
      TaughtAtMostOnce(t, keys, known, map[], texts, k, j);
    }
  }

  /**
   * From an empty memory, an echoing translator gives every segment its own text back exactly when no two segments are
   * white-space variants of each other: the cache hands a later variant the text of the first.
   */
  lemma EchoedSegmentsIff(t: Translator, keys: Keys, known: iset<string>, texts: seq<string>)
    requires UsesKeys(t, keys, known, texts) && Echoes(t)
    ensures (forall n :: 0 <= n < |texts| ==> Result(t, map[], texts, n) == Some(texts[n])) <==> NoVariants(texts)
  {
    if forall n :: 0 <= n < |texts| ==> Result(t, map[], texts, n) == Some(texts[n]) {
      forall i, j | 0 <= i < j < |texts| && TrimSpace(texts[i]) != ""
          && NormalizeText(texts[i]) == NormalizeText(texts[j])
        ensures texts[i] == texts[j]
      {
        FirstVariantWins(t, keys, known, texts, i, j);
        assert Result(t, map[], texts, i) == Some(texts[i]) && Result(t, map[], texts, j) == Some(texts[j]);
      }
    }
    if NoVariants(texts) {
      forall n | 0 <= n < |texts| ensures Result(t, map[], texts, n) == Some(texts[n]) {
        if !Asked(t, map[], texts, n) { var i := CachedIsEarlier(t, keys, known, texts, n); }
      }
    }
  }

  /** The text between two positions, if they are in order and in range. */
  function Slice(source: string, from: nat, to: nat): string { if from <= to <= |source| then source[from..to] else "" }

  /** The texts of the spans. */
  function TextsOf(source: string, spans: seq<Segments.Span>): seq<string> {
    seq(|spans|, i requires 0 <= i < |spans| => Slice(source, spans[i].start, spans[i].stop))
  }

  /** The body of a file without white-space variants comes through an echoing translator unchanged. */
  lemma EchoedBodyIsUnchanged(t: Translator, keys: Keys, known: iset<string>, source: string,
                              nodes: seq<Segments.Node>, results: seq<string>)
    requires Segments.InOrder(source, nodes) && Echoes(t)
    requires UsesKeys(t, keys, known, TextsOf(source, Segments.Merged(source, nodes)))
    requires NoVariants(TextsOf(source, Segments.Merged(source, nodes)))
    requires |results| == |Segments.Merged(source, nodes)|
    requires forall n :: 0 <= n < |results|
               ==> Result(t, map[], TextsOf(source, Segments.Merged(source, nodes)), n) == Some(results[n])
    ensures Splicing.Within(source, Splicing.Translations(Segments.Merged(source, nodes), results))
    ensures Splicing.Spliced(source, Splicing.Translations(Segments.Merged(source, nodes), results), 0) == source
  {
    var spans := Segments.Merged(source, nodes);
    Segments.MergedShape(source, nodes);
    EchoedSegmentsIff(t, keys, known, TextsOf(source, spans));
    var reps := Splicing.Translations(spans, results);
    assert forall n :: 0 <= n < |results| ==> results[n] == TextsOf(source, spans)[n];
    Splicing.SplicingSourceIsIdentity(source, reps, 0);
    assert source[0..] == source;
  }
}
