/** Merging text nodes into segments (scripts/docs-i18n/markdown_segments.go). */
module Segments {
  import opened Text

  /** What the walk over the syntax tree meets, in order; a text node knows its translatable block, if any. */
  datatype Visit = EnterSkipped | LeaveSkipped | TextNode(start: nat, stop: nat, block: Option<nat>)

  datatype Node = Node(start: nat, stop: nat, block: nat)

  /** A span of the source; `block` is the block of its nodes. */
  datatype Span = Span(start: nat, stop: nat, block: nat)

  // ---------------------------------------------------------------- the walk

  function Step(v: Visit): int {
    match v
    case EnterSkipped => 1
    case LeaveSkipped => -1
    case TextNode(_, _, _) => 0
  }

  function Depth(visits: seq<Visit>): int {
    if visits == [] then 0 else Depth(visits[..|visits| - 1]) + Step(visits[|visits| - 1])
  }

  /** A text node outside skipped nodes, in a block, and not blank. */
  predicate Counts(source: string, depth: int, v: Visit) {
    v.TextNode? && depth <= 0 && v.block.Some? && v.start <= v.stop <= |source|
        && !BlankBetween(source, v.start, v.stop)
  }

  function NodeOf(v: Visit): Node
    requires v.TextNode? && v.block.Some?
  {
    Node(v.start, v.stop, v.block.value)
  }

  function Translatable(source: string, before: seq<Visit>, v: Visit): seq<Node> {
    if Counts(source, Depth(before), v) then [NodeOf(v)] else []
  }

  function Nodes(source: string, visits: seq<Visit>): seq<Node> {
    if visits == [] then []
    else
      var before := visits[..|visits| - 1];
      Nodes(source, before) + Translatable(source, before, visits[|visits| - 1])
  }

  /** The nodes lie in the source, one after the other, and are not blank. */
  ghost predicate InOrder(source: string, nodes: seq<Node>) {
    && (forall k :: 0 <= k < |nodes| ==> nodes[k].start < nodes[k].stop <= |source|)
    && (forall j, k :: 0 <= j < k < |nodes| ==> nodes[j].stop <= nodes[k].start)
  }

  // ---------------------------------------------------------------- merging

  predicate BlankBetween(source: string, from: nat, to: nat)
    requires from <= to <= |source|
  {
    TrimSpace(source[from..to]) == ""
  }

  lemma BlankMeans(source: string, from: nat, to: nat)
    requires from <= to <= |source|
    ensures BlankBetween(source, from, to) <==> forall p :: from <= p < to ==> IsSpace(source[p])
  {
    var i, k := TrimSpaceMeaning(source[from..to]);
    assert forall p :: from <= p < to ==> source[p] == source[from..to][p - from];
    assert forall q :: 0 <= q < to - from ==> source[from..to][q] == source[from + q];
  }

  function AddNode(source: string, spans: seq<Span>, n: Node): seq<Span> {
    if spans == [] then [Span(n.start, n.stop, n.block)]
    else
      var last := spans[|spans| - 1];
      if last.block == n.block && last.stop <= n.start <= |source| && BlankBetween(source, last.stop, n.start)
      then spans[|spans| - 1 := Span(last.start, n.stop, last.block)]
      else spans + [Span(n.start, n.stop, n.block)]
  }

  function Merged(source: string, nodes: seq<Node>): seq<Span> {
    if nodes == [] then [] else AddNode(source, Merged(source, nodes[..|nodes| - 1]), nodes[|nodes| - 1])
  }

  method AddVisit(source: string, visit: Visit, skipDepth: int, segments: seq<Span>, lastBlock: Option<nat>)
    returns (newDepth: int, newSegments: seq<Span>, newLast: Option<nat>)
    requires visit.TextNode? ==> visit.start <= visit.stop <= |source|
    requires Counts(source, skipDepth, visit) ==> Follows(source, segments, NodeOf(visit))
    requires lastBlock == LastBlock(segments)
    ensures newDepth == skipDepth + Step(visit)
    ensures newSegments
         == if Counts(source, skipDepth, visit) then AddNode(source, segments, NodeOf(visit)) else segments
    ensures newLast == LastBlock(newSegments)
  {
    newDepth, newSegments, newLast := skipDepth, segments, lastBlock;
    if visit.EnterSkipped? {
      newDepth := skipDepth + 1;
    } else if visit.LeaveSkipped? {
      newDepth := skipDepth - 1;
    } else if skipDepth <= 0 && visit.block.Some? && !BlankBetween(source, visit.start, visit.stop) {
      var last := if segments == [] then Span(0, 0, 0) else segments[|segments| - 1];
      if |segments| > 0 && lastBlock == visit.block && BlankBetween(source, last.stop, visit.start) {
        newSegments := segments[|segments| - 1 := Span(last.start, visit.stop, last.block)];
      } else {
        newSegments := segments + [Span(visit.start, visit.stop, visit.block.value)];
        newLast := visit.block;
      }
    }
  }

  method ExtractSegments(source: string, visits: seq<Visit>) returns (segments: seq<Span>)
    requires forall k :: 0 <= k < |visits| && visits[k].TextNode? ==> visits[k].start <= visits[k].stop <= |source|
    requires InOrder(source, Nodes(source, visits))
    ensures segments == Merged(source, Nodes(source, visits))
    ensures TextInOrder(visits) ==> NothingElseHeld(source, visits, segments)
  {
    segments := [];
    var skipDepth := 0;
    var lastBlock: Option<nat> := None;
    for k := 0 to |visits|
      invariant skipDepth == Depth(visits[..k])
      invariant segments == Merged(source, Nodes(source, visits[..k]))
      invariant lastBlock == LastBlock(segments)
    {
      NextDepth(visits, k);
      NextVisit(source, visits, k, skipDepth, segments);
      skipDepth, segments, lastBlock := AddVisit(source, visits[k], skipDepth, segments, lastBlock);
    }
    assert visits[..|visits|] == visits;
    if TextInOrder(visits) { OnlyChosenHeld(source, visits); }
  }

  function LastBlock(spans: seq<Span>): Option<nat> {
    if spans == [] then None else Some(spans[|spans| - 1].block)
  }

  lemma NextDepth(visits: seq<Visit>, k: nat)
    requires k < |visits|
    ensures Depth(visits[..k + 1]) == Depth(visits[..k]) + Step(visits[k])
  {
    assert visits[..k + 1][..k] == visits[..k];
  }

  /** One visit adds its node, if it is one, to the merged spans. */
  lemma NextVisit(source: string, visits: seq<Visit>, k: nat, depth: int, spans: seq<Span>)
    requires k < |visits| && InOrder(source, Nodes(source, visits))
    requires depth == Depth(visits[..k]) && spans == Merged(source, Nodes(source, visits[..k]))
    ensures Counts(source, depth, visits[k]) ==> Follows(source, spans, NodeOf(visits[k]))
    ensures Merged(source, Nodes(source, visits[..k + 1]))
         == if Counts(source, depth, visits[k]) then AddNode(source, spans, NodeOf(visits[k])) else spans
  {
    assert visits[..k + 1][..k] == visits[..k];
    NodesPrefix(source, visits, k + 1);
    var nodes := Nodes(source, visits[..k]);
    if Counts(source, depth, visits[k]) {
      NodeFollows(source, nodes, NodeOf(visits[k]));
    } else {
      assert nodes + [] == nodes;
    }
  }

  lemma {:induction false} NodesPrefix(source: string, visits: seq<Visit>, k: nat)
    requires k <= |visits| && InOrder(source, Nodes(source, visits))
    ensures InOrder(source, Nodes(source, visits[..k]))
    ensures Nodes(source, visits[..k]) <= Nodes(source, visits)
  {
    if k == |visits| {
      assert visits[..k] == visits;
    } else {
      var before := visits[..|visits| - 1];
      assert before[..k] == visits[..k];
      PrefixInOrder(source, Nodes(source, before), Nodes(source, visits));
      NodesPrefix(source, before, k);
    }
  }

  lemma PrefixInOrder(source: string, a: seq<Node>, b: seq<Node>)
    requires a <= b && InOrder(source, b)
    ensures InOrder(source, a)
  {}

  // ---------------------------------------------------------------- what the segments are

  predicate Inside(n: Node, s: Span) { s.start <= n.start && n.stop <= s.stop && n.block == s.block }

  predicate Covered(nodes: seq<Node>, p: nat) { exists k :: 0 <= k < |nodes| && nodes[k].start <= p < nodes[k].stop }

  /** Sorted, disjoint, within the source. */
  ghost predicate Shape(source: string, spans: seq<Span>) {
    && (forall i :: 0 <= i < |spans| ==> spans[i].start < spans[i].stop <= |source|)
    && (forall i, k :: 0 <= i < k < |spans| ==> spans[i].stop <= spans[k].start)
  }

  /** The last segment ends with the last node. */
  ghost predicate EndsAlike(nodes: seq<Node>, spans: seq<Span>) {
    && (spans == [] <==> nodes == [])
    && (nodes != [] ==> spans[|spans| - 1].stop == nodes[|nodes| - 1].stop)
  }

  /** The node comes behind the spans. */
  predicate Follows(source: string, spans: seq<Span>, n: Node) {
    n.start < n.stop <= |source| && (spans != [] ==> spans[|spans| - 1].stop <= n.start)
  }

  /** Every node lies in a segment of its block. */
  ghost predicate Complete(nodes: seq<Node>, spans: seq<Span>) {
    forall k :: 0 <= k < |nodes| ==> InSome(nodes[k], spans)
  }

  predicate InSome(n: Node, spans: seq<Span>) { exists i :: 0 <= i < |spans| && Inside(n, spans[i]) }

  /** Every position of a segment outside the nodes is white space. */
  ghost predicate OnlyBlankElsewhere(source: string, nodes: seq<Node>, spans: seq<Span>) {
    forall i, p: nat :: 0 <= i < |spans| && spans[i].start <= p < spans[i].stop && p < |source|
      ==> Covered(nodes, p) || IsSpace(source[p])
  }

  /** Neighbouring segments belong to different blocks or have something between them. */
  ghost predicate Maximal(source: string, spans: seq<Span>) {
    forall i :: 0 <= i < |spans| - 1 ==> Apart(source, spans[i], spans[i + 1])
  }

  predicate Apart(source: string, s: Span, t: Span) {
    s.stop <= t.start <= |source| ==> s.block != t.block || !BlankBetween(source, s.stop, t.start)
  }

  lemma {:induction false} MergedShape(source: string, nodes: seq<Node>)
    requires InOrder(source, nodes)
    ensures Shape(source, Merged(source, nodes)) && EndsAlike(nodes, Merged(source, nodes))
  {
    if nodes != [] {
      var init, n := nodes[..|nodes| - 1], nodes[|nodes| - 1];
      MergedShape(source, init);
      assert init != [] ==> init[|init| - 1] == nodes[|nodes| - 2];
    }
  }

  lemma NodeFollows(source: string, init: seq<Node>, n: Node)
    requires InOrder(source, init + [n])
    ensures InOrder(source, init) && Follows(source, Merged(source, init), n)
  {
    var all := init + [n];
    assert all[|init|] == n && forall k :: 0 <= k < |init| ==> all[k] == init[k];
    MergedShape(source, init);
  }

  lemma AddNodeComplete(source: string, init: seq<Node>, spans: seq<Span>, n: Node)
    requires Shape(source, spans) && Follows(source, spans, n) && Complete(init, spans)
    ensures Complete(init + [n], AddNode(source, spans, n))
  {
    var all, after := init + [n], AddNode(source, spans, n);
    forall k | 0 <= k < |all| ensures InSome(all[k], after) {
      if k < |init| {
        assert InSome(init[k], spans);
        var i :| 0 <= i < |spans| && Inside(init[k], spans[i]);
        assert Inside(all[k], after[i]);
      } else {
        assert Inside(n, after[|after| - 1]);
      }
    }
  }

  lemma AddNodeBlank(source: string, init: seq<Node>, spans: seq<Span>, n: Node)
    requires Shape(source, spans) && Follows(source, spans, n) && OnlyBlankElsewhere(source, init, spans)
    ensures OnlyBlankElsewhere(source, init + [n], AddNode(source, spans, n))
  {
    var all, after := init + [n], AddNode(source, spans, n);
    forall i, p: nat | 0 <= i < |after| && after[i].start <= p < after[i].stop && p < |source|
      ensures Covered(all, p) || IsSpace(source[p])
    {
      if n.start <= p < n.stop {
        assert all[|init|] == n;
      } else if i < |spans| && p < spans[i].stop {
        CoveredMore(init, n, p);
      } else {
        BlankMeans(source, spans[|spans| - 1].stop, n.start);
      }
    }
  }

  lemma CoveredMore(init: seq<Node>, n: Node, p: nat)
    ensures Covered(init, p) ==> Covered(init + [n], p)
  {
    if Covered(init, p) {
      var k :| 0 <= k < |init| && init[k].start <= p < init[k].stop;
      assert (init + [n])[k] == init[k];
    }
  }

  /**
   * The segments are sorted and disjoint, hold every node within a segment of its block, have only white space besides
   * the nodes, and cannot be merged further.
   */
  lemma {:induction false} SegmentsAreRight(source: string, nodes: seq<Node>)
    requires InOrder(source, nodes)
    ensures Shape(source, Merged(source, nodes)) && EndsAlike(nodes, Merged(source, nodes))
    ensures Complete(nodes, Merged(source, nodes))
    ensures OnlyBlankElsewhere(source, nodes, Merged(source, nodes))
    ensures Maximal(source, Merged(source, nodes))
  {
    MergedShape(source, nodes);
    if nodes != [] {
      var init, n := nodes[..|nodes| - 1], nodes[|nodes| - 1];
      assert nodes == init + [n];
      NodeFollows(source, init, n);
      SegmentsAreRight(source, init);
      AddNodeComplete(source, init, Merged(source, init), n);
      AddNodeBlank(source, init, Merged(source, init), n);
    }
  }

  /** A node lies in one segment only. */
  lemma OneSegmentEach(source: string, nodes: seq<Node>, k: nat, i: nat, j: nat)
    requires InOrder(source, nodes) && k < |nodes|
    requires i < |Merged(source, nodes)| && j < |Merged(source, nodes)|
    requires Inside(nodes[k], Merged(source, nodes)[i]) && Inside(nodes[k], Merged(source, nodes)[j])
    ensures i == j
  {
    MergedShape(source, nodes);
  }

  // ---------------------------------------------------------------- which text nodes are nodes

  /** No more skipped nodes were entered than left before visit k. */
  ghost predicate OutsideSkipped(visits: seq<Visit>, k: nat)
    requires k < |visits|
  {
    multiset(visits[..k])[EnterSkipped] <= multiset(visits[..k])[LeaveSkipped]
  }

  /** Visit k is a text node in a translatable block, outside skipped nodes, with something besides white space. */
  ghost predicate Chosen(source: string, visits: seq<Visit>, k: nat)
    requires k < |visits|
  {
    && visits[k].TextNode? && visits[k].block.Some? && visits[k].start <= visits[k].stop <= |source|
    && OutsideSkipped(visits, k)
    && exists p :: visits[k].start <= p < visits[k].stop && !IsSpace(source[p])
  }

  lemma CountNext<T>(xs: seq<T>, k: nat, x: T)
    requires k < |xs|
    ensures multiset(xs[..k + 1])[x] == multiset(xs[..k])[x] + if xs[k] == x then 1 else 0
  {
    assert xs[..k + 1] == xs[..k] + [xs[k]];
  }

  lemma {:induction false} DepthCounts(visits: seq<Visit>, k: nat)
    requires k <= |visits|
    ensures Depth(visits[..k]) + multiset(visits[..k])[LeaveSkipped] == multiset(visits[..k])[EnterSkipped]
  {
    if k > 0 {
      DepthCounts(visits, k - 1);
      NextDepth(visits, k - 1);
      CountNext(visits, k - 1, EnterSkipped);
      CountNext(visits, k - 1, LeaveSkipped);
    }
  }

  lemma CountsIffChosen(source: string, visits: seq<Visit>, k: nat)
    requires k < |visits|
    ensures Counts(source, Depth(visits[..k]), visits[k]) <==> Chosen(source, visits, k)
  {
    DepthCounts(visits, k);
    var v := visits[k];
    if v.TextNode? && v.start <= v.stop <= |source| { BlankMeans(source, v.start, v.stop); }
  }

  /** The nodes are the text nodes at the places `ks`. */
  ghost predicate TakenFrom(visits: seq<Visit>, ks: seq<nat>, nodes: seq<Node>) {
    && |ks| == |nodes| && (forall i, j :: 0 <= i < j < |ks| ==> ks[i] < ks[j])
    && forall i :: 0 <= i < |ks| ==> ks[i] < |visits| && IsNodeOf(visits[ks[i]], nodes[i])
  }

  predicate IsNodeOf(v: Visit, n: Node) { v == TextNode(n.start, n.stop, Some(n.block)) }

  lemma {:induction false} PlacesUpTo(source: string, visits: seq<Visit>, n: nat) returns (ks: seq<nat>)
    requires n <= |visits|
    ensures TakenFrom(visits, ks, Nodes(source, visits[..n]))
    ensures forall k: nat :: k in ks <==> k < n && Chosen(source, visits, k)
  {
    ks := [];
    if n > 0 {
      ks := PlacesUpTo(source, visits, n - 1);
      assert visits[..n][..n - 1] == visits[..n - 1];
      CountsIffChosen(source, visits, n - 1);
      if Chosen(source, visits, n - 1) {
        assert forall i :: 0 <= i < |ks| ==> ks[i] in ks;
        ks := ks + [n - 1];
      }
    }
  }

  /** Exactly the chosen text nodes become nodes, each once, in the order in which they are met. */
  lemma NodesAreChosen(source: string, visits: seq<Visit>) returns (ks: seq<nat>)
    ensures TakenFrom(visits, ks, Nodes(source, visits))
    ensures forall k: nat :: k in ks <==> k < |visits| && Chosen(source, visits, k)
  {
    ks := PlacesUpTo(source, visits, |visits|);
    assert visits[..|visits|] == visits;
  }

  /** The text nodes lie in the source one after the other. */
  ghost predicate TextInOrder(visits: seq<Visit>) {
    forall j, k :: 0 <= j < k < |visits| && visits[j].TextNode? && visits[k].TextNode?
      ==> visits[j].stop <= visits[k].start
  }

  /** Position p lies in text node k and is not white space. */
  ghost predicate IsTextAt(source: string, visits: seq<Visit>, k: nat, p: nat) {
    && k < |visits| && visits[k].TextNode? && visits[k].start <= p < visits[k].stop && p < |source|
    && !IsSpace(source[p])
  }

  /** No segment holds text of a text node that was not chosen, of code in particular. */
  ghost predicate NothingElseHeld(source: string, visits: seq<Visit>, segments: seq<Span>) {
    forall k: nat, p: nat, i :: IsTextAt(source, visits, k, p) && !Chosen(source, visits, k) && 0 <= i < |segments|
      ==> !(segments[i].start <= p < segments[i].stop)
  }

  lemma OnlyChosenHeld(source: string, visits: seq<Visit>)
    requires TextInOrder(visits) && InOrder(source, Nodes(source, visits))
    ensures NothingElseHeld(source, visits, Merged(source, Nodes(source, visits)))
  {
    var nodes := Nodes(source, visits);
    var ks := NodesAreChosen(source, visits);
    SegmentsAreRight(source, nodes);
    forall k: nat, p: nat | IsTextAt(source, visits, k, p) && !Chosen(source, visits, k) ensures !Covered(nodes, p) {
      forall m | 0 <= m < |nodes| ensures !(nodes[m].start <= p < nodes[m].stop) {
        assert ks[m] in ks && IsNodeOf(visits[ks[m]], nodes[m]);
        assert ks[m] != k;
      }
    }
  }
}
