/**
 * Splicing translations into the source, for segments and for HTML blocks (markdown_segments.go,
 * html_translate.go).
 */
module Splicing {
  import Segments

  datatype Replacement = Replacement(start: nat, stop: nat, value: string)

  predicate Within(body: string, reps: seq<Replacement>) {
    forall i :: 0 <= i < |reps| ==> reps[i].start <= reps[i].stop <= |body|
  }

  /** The text from `last` on, with the replacements that do not reach back behind it. */
  function Spliced(body: string, reps: seq<Replacement>, last: nat): string
    requires Within(body, reps) && last <= |body|
  {
    if reps == [] then body[last..]
    else if reps[0].start < last then Spliced(body, reps[1..], last)
    else body[last..reps[0].start] + reps[0].value + Spliced(body, reps[1..], reps[0].stop)
  }

  method ApplyTranslations(body: string, segments: seq<Replacement>) returns (r: string)
    requires Within(body, segments)
    ensures r == Spliced(body, segments, 0)
  {
    if |segments| == 0 { return body; }
    var out := "";
    var last: nat := 0;
    for i := 0 to |segments|
      invariant last <= |body|
      invariant Spliced(body, segments, 0) == out + Spliced(body, segments[i..], last)
    {
      var seg := segments[i];
      assert segments[i..][0] == seg && segments[i..][1..] == segments[i + 1..];
      if seg.start >= last {
        assert out + (body[last..seg.start] + seg.value + Spliced(body, segments[i + 1..], seg.stop))
            == out + body[last..seg.start] + seg.value + Spliced(body, segments[i + 1..], seg.stop);
        out := out + body[last..seg.start] + seg.value;
        last := seg.stop;
      }
    }
    r := out + body[last..];
  }

  // ---------------------------------------------------------------- nothing else changes

  /** Splicing in the source texts themselves changes nothing, whatever the order and overlaps. */
  lemma {:induction false} SplicingSourceIsIdentity(body: string, reps: seq<Replacement>, last: nat)
    requires Within(body, reps) && last <= |body|
    requires forall i :: 0 <= i < |reps| ==> reps[i].value == body[reps[i].start..reps[i].stop]
    ensures Spliced(body, reps, last) == body[last..]
  {
    if reps != [] {
      if reps[0].start < last {
        SplicingSourceIsIdentity(body, reps[1..], last);
      } else {
        SplicingSourceIsIdentity(body, reps[1..], reps[0].stop);
        ThreeSlices(body, last, reps[0].start, reps[0].stop);
      }
    }
  }

  /** Sorted, disjoint, none before `last`. */
  predicate Apart(reps: seq<Replacement>, last: nat) {
    && (forall i :: 0 <= i < |reps| ==> last <= reps[i].start <= reps[i].stop)
    && (forall i, k :: 0 <= i < k < |reps| ==> reps[i].stop <= reps[k].start)
  }

  /** The replacements that are not skipped. */
  function Kept(reps: seq<Replacement>, last: nat): seq<Replacement> {
    if reps == [] then []
    else if reps[0].start < last then Kept(reps[1..], last)
    else [reps[0]] + Kept(reps[1..], reps[0].stop)
  }

  lemma {:induction false} KeptIsApart(body: string, reps: seq<Replacement>, last: nat)
    requires Within(body, reps)
    ensures Within(body, Kept(reps, last)) && Apart(Kept(reps, last), last)
  {
    if reps != [] {
      KeptIsApart(body, reps[1..], if reps[0].start < last then last else reps[0].stop);
    }
  }

  lemma {:induction false} KeptSplicesAlike(body: string, reps: seq<Replacement>, last: nat)
    requires Within(body, reps) && Within(body, Kept(reps, last)) && last <= |body|
    ensures Spliced(body, Kept(reps, last), last) == Spliced(body, reps, last)
  {
    if reps != [] {
      var next := if reps[0].start < last then last else reps[0].stop;
      KeptIsApart(body, reps[1..], next);
      KeptSplicesAlike(body, reps[1..], next);
      if reps[0].start >= last {
        assert Kept(reps, last)[1..] == Kept(reps[1..], next);
      }
    }
  }

  lemma {:induction false} ApartIsKept(reps: seq<Replacement>, last: nat)
    requires Apart(reps, last)
    ensures Kept(reps, last) == reps
  {
    if reps != [] {
      ApartIsKept(reps[1..], reps[0].stop);
      assert reps == [reps[0]] + reps[1..];
    }
  }

  /** Skipped replacements have no effect; the others are sorted and disjoint; none is skipped exactly if all are. */
  lemma KeptMeaning(body: string, reps: seq<Replacement>)
    requires Within(body, reps)
    ensures Within(body, Kept(reps, 0)) && Apart(Kept(reps, 0), 0)
    ensures Spliced(body, Kept(reps, 0), 0) == Spliced(body, reps, 0)
    ensures Kept(reps, 0) == reps <==> Apart(reps, 0)
  {
    KeptIsApart(body, reps, 0);
    KeptSplicesAlike(body, reps, 0);
    if Apart(reps, 0) { ApartIsKept(reps, 0); }
  }

  // ---------------------------------------------------------------- undoing a splice

  /** The replacements that put the source texts back, in the coordinates of the spliced text. */
  function Undo(body: string, reps: seq<Replacement>, last: nat, at: nat): seq<Replacement>
    requires Within(body, reps) && Apart(reps, last)
  {
    if reps == [] then []
    else
      var from := at + reps[0].start - last;
      [Replacement(from, from + |reps[0].value|, body[reps[0].start..reps[0].stop])]
      + Undo(body, reps[1..], reps[0].stop, from + |reps[0].value|)
  }

  /** Splicing `undo` into the text from `at` on gives the source from `last` on. */
  ghost predicate Restores(out: string, undo: seq<Replacement>, at: nat, source: string) {
    Within(out, undo) && Apart(undo, at) && at <= |out| && Spliced(out, undo, at) == source
  }

  lemma {:induction false} UndoRestoresFrom(body: string, reps: seq<Replacement>, last: nat, out: string, at: nat)
    requires Within(body, reps) && Apart(reps, last) && last <= |body|
    requires at <= |out| && out[at..] == Spliced(body, reps, last)
    ensures Restores(out, Undo(body, reps, last, at), at, body[last..])
    decreases |reps|
  {
    if reps != [] {
      var from, next := UndoFirst(body, reps, last, out, at);
      UndoRestoresFrom(body, reps[1..], reps[0].stop, out, next);
      var rep := Replacement(from, next, body[reps[0].start..reps[0].stop]);
      UndoNext(out, rep, Undo(body, reps[1..], reps[0].stop, next), at, body[reps[0].stop..]);
      ThreeSlices(body, last, reps[0].start, reps[0].stop);
    }
  }

  lemma ThreeSlices(text: string, a: nat, b: nat, c: nat)
    requires a <= b <= c <= |text|
    ensures text[a..] == text[a..b] + text[b..c] + text[c..]
  {}

  lemma UndoFirst(body: string, reps: seq<Replacement>, last: nat, out: string, at: nat) returns (from: nat, next: nat)
    requires Within(body, reps) && Apart(reps, last) && last <= |body| && reps != []
    requires at <= |out| && out[at..] == Spliced(body, reps, last)
    ensures at <= from <= next <= |out| && next == from + |reps[0].value|
    ensures out[at..from] == body[last..reps[0].start] && out[next..] == Spliced(body, reps[1..], reps[0].stop)
    ensures Undo(body, reps, last, at)
         == [Replacement(from, next, body[reps[0].start..reps[0].stop])] + Undo(body, reps[1..], reps[0].stop, next)
  {
    from := at + reps[0].start - last;
    next := from + |reps[0].value|;
  }

  lemma UndoNext(out: string, rep: Replacement, undo: seq<Replacement>, at: nat, source: string)
    requires at <= rep.start <= rep.stop <= |out| && Restores(out, undo, rep.stop, source)
    ensures Restores(out, [rep] + undo, at, out[at..rep.start] + rep.value + source)
  {
    assert ([rep] + undo)[1..] == undo;
  }

  /** Nothing outside the replaced spans is lost: putting the source texts back restores the source. */
  lemma SpliceIsReversible(body: string, reps: seq<Replacement>)
    requires Within(body, reps)
    ensures var kept, out := Kept(reps, 0), Spliced(body, reps, 0);
            && Within(body, kept) && Apart(kept, 0)
            && Within(out, Undo(body, kept, 0, 0))
            && Spliced(out, Undo(body, kept, 0, 0), 0) == body
  {
    KeptMeaning(body, reps);
    var out := Spliced(body, reps, 0);
    assert out[0..] == out && body[0..] == body;
    UndoRestoresFrom(body, Kept(reps, 0), 0, out, 0);
  }

  // ---------------------------------------------------------------- segments and HTML blocks

  function Translations(spans: seq<Segments.Span>, values: seq<string>): seq<Replacement>
    requires |values| == |spans|
  {
    seq(|spans|, i requires 0 <= i < |spans| => Replacement(spans[i].start, spans[i].stop, values[i]))
  }

  /** Of the extracted segments none is skipped. */
  lemma SegmentsAreAllKept(source: string, nodes: seq<Segments.Node>, values: seq<string>)
    requires Segments.InOrder(source, nodes) && |values| == |Segments.Merged(source, nodes)|
    ensures var reps := Translations(Segments.Merged(source, nodes), values);
            Within(source, reps) && Kept(reps, 0) == reps
  {
    Segments.MergedShape(source, nodes);
    var reps := Translations(Segments.Merged(source, nodes), values);
    assert Within(source, reps);
    KeptMeaning(source, reps);
  }

  /** What `sort.Slice` may make of the replacements. */
  ghost predicate IsSortOf(sorted: seq<Replacement>, reps: seq<Replacement>) {
    && multiset(sorted) == multiset(reps)
    && forall i, k :: 0 <= i < k < |sorted| ==> sorted[i].start <= sorted[k].start
  }

  predicate Disjoint(a: Replacement, b: Replacement) { a.stop <= b.start || b.stop <= a.start }

  /** Blocks found in a document: not empty, within it, pairwise disjoint. */
  ghost predicate AreBlocks(body: string, reps: seq<Replacement>) {
    && (forall i :: 0 <= i < |reps| ==> reps[i].start < reps[i].stop <= |body|)
    && (forall i, k :: 0 <= i < k < |reps| ==> Disjoint(reps[i], reps[k]))
  }

  method ApplyHTMLReplacements(body: string, reps: seq<Replacement>, sorted: seq<Replacement>) returns (r: string)
    requires Within(body, reps) && IsSortOf(sorted, reps)
    ensures Within(body, sorted) && r == Spliced(body, sorted, 0)
  {
    SortedWithin(body, sorted, reps);
    r := ApplyTranslations(body, sorted);
  }

  lemma SortedWithin(body: string, sorted: seq<Replacement>, reps: seq<Replacement>)
    requires Within(body, reps) && multiset(sorted) == multiset(reps)
    ensures Within(body, sorted)
  {
    forall i | 0 <= i < |sorted| ensures sorted[i].start <= sorted[i].stop <= |body| {
      assert sorted[i] in multiset(reps);
      var k :| 0 <= k < |reps| && reps[k] == sorted[i];
    }
  }

  lemma CountedTwice<T>(xs: seq<T>, i: nat, k: nat)
    requires i < k < |xs| && xs[i] == xs[k]
    ensures multiset(xs)[xs[i]] >= 2
  {
    assert xs == xs[..k] + [xs[k]] + xs[k + 1..];
    assert xs[..k][i] == xs[i];
  }

  lemma CountedOnce<T>(xs: seq<T>, p: nat)
    requires p < |xs| && forall q :: 0 <= q < |xs| && q != p ==> xs[q] != xs[p]
    ensures multiset(xs)[xs[p]] == 1
  {
    assert xs == xs[..p] + [xs[p]] + xs[p + 1..];
    assert xs[p] !in xs[..p] && xs[p] !in xs[p + 1..];
  }

  /** Two different places of the sorted list hold two different blocks. */
  lemma SortedAreApart(body: string, sorted: seq<Replacement>, reps: seq<Replacement>, i: nat, k: nat)
    requires AreBlocks(body, reps) && IsSortOf(sorted, reps) && i < k < |sorted|
    ensures sorted[i].stop <= sorted[k].start && sorted[i].start < sorted[i].stop
  {
    assert sorted[i] in multiset(reps) && sorted[k] in multiset(reps);
    var p :| 0 <= p < |reps| && reps[p] == sorted[i];
    var q :| 0 <= q < |reps| && reps[q] == sorted[k];
    assert forall r :: 0 <= r < |reps| && r != p ==> reps[r] != reps[p];
    CountedOnce(reps, p);
    if sorted[i] == sorted[k] { CountedTwice(sorted, i, k); }
  }

  /** Every HTML block is replaced, and every way of sorting them gives the same text. */
  lemma BlocksAreAllReplaced(body: string, reps: seq<Replacement>, a: seq<Replacement>, b: seq<Replacement>)
    requires AreBlocks(body, reps) && IsSortOf(a, reps) && IsSortOf(b, reps)
    ensures Kept(a, 0) == a && a == b
  {
    SortedWithin(body, a, reps);
    forall i: nat, k: nat | i < k < |a| ensures a[i].stop <= a[k].start && a[i].start < a[k].start {
      SortedAreApart(body, a, reps, i, k);
    }
    KeptMeaning(body, a);
    SortIsUnique(a, b);
  }

  lemma {:induction false} SortIsUnique(a: seq<Replacement>, b: seq<Replacement>)
    requires multiset(a) == multiset(b)
    requires forall i, k :: 0 <= i < k < |a| ==> a[i].start < a[k].start
    requires forall i, k :: 0 <= i < k < |b| ==> b[i].start <= b[k].start
    ensures a == b
  {
    assert |a| == |multiset(a)| == |multiset(b)| == |b|;
    if a != [] {
      SameFirst(a, b);
      RestOf(a);
      RestOf(b);
      SortIsUnique(a[1..], b[1..]);
    }
  }

  lemma RestOf(s: seq<Replacement>)
    requires s != []
    ensures s == [s[0]] + s[1..] && multiset(s[1..]) == multiset(s) - multiset{s[0]}
  {
    assert s == [s[0]] + s[1..];
  }

  lemma SameFirst(a: seq<Replacement>, b: seq<Replacement>)
    requires a != [] && b != [] && multiset(a) == multiset(b)
    requires forall k :: 0 < k < |a| ==> a[0].start < a[k].start
    requires forall k :: 0 < k < |b| ==> b[0].start <= b[k].start
    ensures a[0] == b[0]
  {
    assert a[0] in multiset(b) && b[0] in multiset(a);
    var i :| 0 <= i < |b| && b[i] == a[0];
    var k :| 0 <= k < |a| && a[k] == b[0];
  }
}
